/**
 * The data side of `display_jobs`: jobs are grouped by the city part of their location,
 * the groups are listed in ascending city order, and the jobs of each group are numbered
 * from 1 and flagged remote or not.
 */
module Display {
  import opened Results
  import opened Text
  import opened Json
  import opened Filter
  import opened FilterFacts

  /** `s.split(',')[0]`: the text before the first comma, or all of `s` when it has none. */
  function BeforeFirstComma(s: string): string
  {
    if |s| == 0 || s[0] == ',' then [] else [s[0]] + BeforeFirstComma(s[1..])
  }

  /** `split(',')[0]` is the longest comma-free prefix. */
  lemma {:induction false} BeforeFirstCommaShape(s: string)
    ensures |BeforeFirstComma(s)| <= |s| && BeforeFirstComma(s) == s[..|BeforeFirstComma(s)|]
    ensures ',' !in BeforeFirstComma(s)
    ensures |BeforeFirstComma(s)| < |s| ==> s[|BeforeFirstComma(s)|] == ','
  {
    if |s| > 0 && s[0] != ',' {
      BeforeFirstCommaShape(s[1..]);
    }
  }

  /** The key a job is grouped under: `location.split(',')[0].strip()`. */
  function CityKey(location: string): string
  {
    Strip(BeforeFirstComma(location))
  }

  /**
   * The city key is the piece `location[i..j]` of the text before the first comma (which ends
   * at `c`), with only whitespace cut off around it; it holds no comma and neither starts nor
   * ends with whitespace.
   */
  lemma CityKeyShape(location: string) returns (i: nat, j: nat, c: nat)
    ensures i <= j <= c <= |location| && CityKey(location) == location[i..j]
    ensures ',' !in location[..c] && (c < |location| ==> location[c] == ',')
    ensures AllSpace(location[..i]) && AllSpace(location[j..c])
    ensures ',' !in CityKey(location)
    ensures CityKey(location) == [] || (!IsSpace(CityKey(location)[0]) && !IsSpace(CityKey(location)[|CityKey(location)| - 1]))
  {
    var before := BeforeFirstComma(location);
    BeforeFirstCommaShape(location);
    c := |before|;
    i, j := StripBounds(before);
    assert location[..c][i..j] == location[i..j];
    assert location[..c][j..] == location[j..c];
    assert forall k :: i <= k < j ==> location[k] == before[k];
  }

  /** With no comma in the city part, the text before the first comma of "city, country" is the city. */
  lemma {:induction false} BeforeFirstCommaOfJoin(city: string, rest: string)
    requires ',' !in city
    ensures BeforeFirstComma(city + ", " + rest) == city
  {
    if |city| > 0 {
      assert (city + ", " + rest)[1..] == city[1..] + ", " + rest;
      BeforeFirstCommaOfJoin(city[1..], rest);
    } else {
      assert (city + ", " + rest)[0] == ',';
    }
  }

  /**
   * A job produced by the extraction is grouped under its stripped city, unless the city
   * text itself contains a comma.
   */
  lemma CityKeyOfExtractedJob(job: JsonValue)
    requires job.JObject?
    requires ',' !in Str(Get(job.members, "city", NotAvailable))
    ensures CityKey(Project(job).location) == Strip(Str(Get(job.members, "city", NotAvailable)))
  {
    var city := Str(Get(job.members, "city", NotAvailable));
    var country := Str(Get(job.members, "country", NotAvailable));
    BeforeFirstCommaOfJoin(city, country);
    assert Project(job).location == city + ", " + country;
  }

  /** The jobs grouped under `city`, in input order. */
  function JobsIn(jobs: seq<Job>, city: string): seq<Job>
  {
    if |jobs| == 0 then []
    else
      var n := |jobs| - 1;
      JobsIn(jobs[..n], city) + (if CityKey(jobs[n].location) == city then [jobs[n]] else [])
  }

  /** The keys of all groups. */
  function CitiesOf(jobs: seq<Job>): set<string>
  {
    set i | 0 <= i < |jobs| :: CityKey(jobs[i].location)
  }

  /** The keys listed in `cs`, as a set. */
  function Elems(cs: seq<string>): set<string>
  {
    set c | c in cs
  }

  predicate Distinct(s: seq<string>)
  {
    forall i, j :: 0 <= i < j < |s| ==> s[i] != s[j]
  }

  /** A city no job is grouped under has an empty group. */
  lemma {:induction false} JobsInAbsent(jobs: seq<Job>, city: string)
    requires city !in CitiesOf(jobs)
    ensures JobsIn(jobs, city) == []
  {
    if |jobs| > 0 {
      var n := |jobs| - 1;
      assert CitiesOf(jobs[..n]) <= CitiesOf(jobs) by {
        forall c | c in CitiesOf(jobs[..n]) ensures c in CitiesOf(jobs) {
          var k :| 0 <= k < n && CityKey(jobs[..n][k].location) == c;
          assert jobs[..n][k] == jobs[k];
        }
      }
      assert CityKey(jobs[n].location) in CitiesOf(jobs);
      JobsInAbsent(jobs[..n], city);
    }
  }

  /** One more job adds its own city to the keys. */
  lemma CitiesOfSnoc(jobs: seq<Job>, job: Job)
    ensures CitiesOf(jobs + [job]) == CitiesOf(jobs) + {CityKey(job.location)}
  {
    var all := jobs + [job];
    forall c | c in CitiesOf(all) ensures c in CitiesOf(jobs) + {CityKey(job.location)} {
      var k :| 0 <= k < |all| && CityKey(all[k].location) == c;
      if k < |jobs| {
        assert all[k] == jobs[k];
      }
    }
    forall c | c in CitiesOf(jobs) ensures c in CitiesOf(all) {
      var k :| 0 <= k < |jobs| && CityKey(jobs[k].location) == c;
      assert all[k] == jobs[k];
    }
    assert all[|jobs|] == job;
  }

  /**
   * The grouping loop of `display_jobs`: `cities` maps each city key to its jobs, and `order`
   * lists the keys in the order the dict received them.
   */
  method GroupByCity(jobs: seq<Job>) returns (order: seq<string>, cities: map<string, seq<Job>>)
    ensures cities.Keys == CitiesOf(jobs)
    ensures forall c :: c in cities ==> cities[c] == JobsIn(jobs, c)
    ensures Distinct(order) && forall c :: c in order <==> c in cities
  {
    order, cities := [], map[];
    for i := 0 to |jobs|
      invariant cities.Keys == CitiesOf(jobs[..i])
      invariant forall c :: c in cities ==> cities[c] == JobsIn(jobs[..i], c)
      invariant Distinct(order) && forall c :: c in order <==> c in cities
    {
      var job := jobs[i];
      var city := CityKey(job.location);
      assert jobs[..i + 1] == jobs[..i] + [job];
      CitiesOfSnoc(jobs[..i], job);
      if city !in cities {
        JobsInAbsent(jobs[..i], city);
        order := order + [city];
        cities := cities[city := []];
      }
      cities := cities[city := cities[city] + [job]];
    }
    assert jobs[..|jobs|] == jobs;
  }

  /** Consecutive keys are in Python's string order. */
  predicate Ascending(s: seq<string>)
  {
    forall i :: 0 <= i < |s| - 1 ==> Below(s[i], s[i + 1])
  }

  /** An ascending list is strictly increasing between any two positions, so it has no duplicate. */
  lemma {:induction false} AscendingStrict(s: seq<string>)
    requires Ascending(s)
    ensures forall i, j :: 0 <= i < j < |s| ==> Below(s[i], s[j])
  {
    if |s| > 1 {
      var rest := s[1..];
      assert Ascending(rest) by {
        forall i | 0 <= i < |rest| - 1 ensures Below(rest[i], rest[i + 1]) {
          assert rest[i] == s[i + 1] && rest[i + 1] == s[i + 2];
        }
      }
      AscendingStrict(rest);
      forall i, j | 0 <= i < j < |s| ensures Below(s[i], s[j]) {
        if i > 0 {
          assert s[i] == rest[i - 1] && s[j] == rest[j - 1];
        } else if j > 1 {
          assert s[1] == rest[0] && s[j] == rest[j - 1];
          BelowTransitive(s[0], s[1], s[j]);
        }
      }
    }
  }

  /** One insertion step of sorting the keys: `c` goes before the first key above it. */
  function Insert(c: string, sorted: seq<string>): (r: seq<string>)
    requires Ascending(sorted) && c !in sorted
    ensures Ascending(r)
    ensures multiset(r) == multiset(sorted) + multiset{c}
    ensures r[0] == c || (|sorted| > 0 && r[0] == sorted[0])
  {
    if |sorted| == 0 then [c]
    else if Below(c, sorted[0]) then [c] + sorted
    else
      var rest := sorted[1..];
      assert sorted == [sorted[0]] + rest;
      assert Ascending(rest) by {
        forall i | 0 <= i < |rest| - 1 ensures Below(rest[i], rest[i + 1]) {
          assert rest[i] == sorted[i + 1] && rest[i + 1] == sorted[i + 2];
        }
      }
      BelowTotal(c, sorted[0]);
      [sorted[0]] + Insert(c, rest)
  }

  /** `sorted(cities)`: the keys in ascending order, each exactly once. */
  function SortCities(order: seq<string>): (r: seq<string>)
    requires Distinct(order)
    ensures Ascending(r)
    ensures multiset(r) == multiset(order)
  {
    if |order| == 0 then []
    else
      var n := |order| - 1;
      var front := SortCities(order[..n]);
      assert order == order[..n] + [order[n]];
      assert order[n] !in multiset(order[..n]);
      Insert(order[n], front)
  }

  /** Whether a job is shown as remote: its `remote` value is exactly the string "1". */
  predicate IsRemote(job: Job)
  {
    job.remote == JString("1")
  }

  /**
   * A kept job whose record has no `remote` field, or whose `remote` is anything but the string
   * "1" (the number 1 included), is shown as not remote.
   */
  lemma RemoteOnlyForStringOne(items: seq<JsonValue>, k: nat)
    requires k < |Selected(items)|
    ensures (
      SelectedIsSubsequence(items);
      var remote := Lookup(items[KeptIndices(items)[k]].members, "remote");
      IsRemote(Selected(items)[k]) <==> remote == Some(JString("1")))
  {
    KeptFields(items, k);
  }

  /** One numbered job line of a city section. */
  datatype Entry = Entry(number: nat, job: Job, remote: bool)

  /** A city heading with the job lines under it; the heading shows `|entries|`. */
  datatype Section = Section(city: string, entries: seq<Entry>)

  /** The jobs listed by some job lines, in order. */
  function JobsOf(entries: seq<Entry>): seq<Job>
  {
    seq(|entries|, i requires 0 <= i < |entries| => entries[i].job)
  }

  /** All jobs shown, section after section. */
  function Shown(sections: seq<Section>): seq<Job>
  {
    if |sections| == 0 then [] else Shown(sections[..|sections| - 1]) + JobsOf(sections[|sections| - 1].entries)
  }

  /** The groups of `cities` concatenated in the order of `cs`. */
  function Flatten(jobs: seq<Job>, cs: seq<string>): seq<Job>
  {
    if |cs| == 0 then [] else Flatten(jobs, cs[..|cs| - 1]) + JobsIn(jobs, cs[|cs| - 1])
  }

  /** The jobs whose city is in `cs`, in input order. */
  function InCities(jobs: seq<Job>, cs: set<string>): seq<Job>
  {
    if |jobs| == 0 then []
    else
      var n := |jobs| - 1;
      InCities(jobs[..n], cs) + (if CityKey(jobs[n].location) in cs then [jobs[n]] else [])
  }

  /** Adding one more city to a set adds exactly that city's group. */
  lemma {:induction false} InCitiesAdd(jobs: seq<Job>, cs: set<string>, c: string)
    requires c !in cs
    ensures multiset(InCities(jobs, cs + {c})) == multiset(InCities(jobs, cs)) + multiset(JobsIn(jobs, c))
  {
    if |jobs| > 0 {
      InCitiesAdd(jobs[..|jobs| - 1], cs, c);
    }
  }

  /** Concatenating the groups of distinct cities gives, as a multiset, the jobs of those cities. */
  lemma {:induction false} FlattenIsInCities(jobs: seq<Job>, cs: seq<string>)
    requires Distinct(cs)
    ensures multiset(Flatten(jobs, cs)) == multiset(InCities(jobs, Elems(cs)))
  {
    if |cs| == 0 {
      assert Elems(cs) == {};
      InCitiesNone(jobs);
    } else {
      var n := |cs| - 1;
      var front := cs[..n];
      assert Distinct(front);
      FlattenIsInCities(jobs, front);
      assert cs[n] !in front;
      assert Elems(cs) == Elems(front) + {cs[n]} by {
        assert cs == front + [cs[n]];
      }
      InCitiesAdd(jobs, Elems(front), cs[n]);
    }
  }

  lemma {:induction false} InCitiesNone(jobs: seq<Job>)
    ensures InCities(jobs, {}) == []
  {
    if |jobs| > 0 {
      InCitiesNone(jobs[..|jobs| - 1]);
    }
  }

  /** Selecting the jobs of every city that occurs keeps all of them. */
  lemma {:induction false} InAllCities(jobs: seq<Job>, cs: set<string>)
    requires CitiesOf(jobs) <= cs
    ensures InCities(jobs, cs) == jobs
  {
    if |jobs| > 0 {
      var n := |jobs| - 1;
      assert CitiesOf(jobs[..n]) <= CitiesOf(jobs) by {
        forall c | c in CitiesOf(jobs[..n]) ensures c in CitiesOf(jobs) {
          var k :| 0 <= k < n && CityKey(jobs[..n][k].location) == c;
          assert jobs[..n][k] == jobs[k];
        }
      }
      assert CityKey(jobs[n].location) in CitiesOf(jobs);
      InAllCities(jobs[..n], cs);
      assert jobs == jobs[..n] + [jobs[n]];
    }
  }

  /**
   * Grouping partitions the jobs: listing every city's group once, in any order, shows each
   * job exactly as often as it occurs in the input.
   */
  lemma Partition(jobs: seq<Job>, cs: seq<string>)
    requires Distinct(cs) && Elems(cs) == CitiesOf(jobs)
    ensures multiset(Flatten(jobs, cs)) == multiset(jobs)
  {
    FlattenIsInCities(jobs, cs);
    InAllCities(jobs, Elems(cs));
  }

  /** The positions of the jobs grouped under `city`, in increasing order. */
  function CityIndices(jobs: seq<Job>, city: string): (idx: seq<nat>)
    ensures forall k :: 0 <= k < |idx| ==> idx[k] < |jobs| && CityKey(jobs[idx[k]].location) == city
    ensures forall k, l :: 0 <= k < l < |idx| ==> idx[k] < idx[l]
  {
    if |jobs| == 0 then []
    else
      var n := |jobs| - 1;
      var front := jobs[..n];
      var inFront := CityIndices(front, city);
      assert forall k :: 0 <= k < |inFront| ==> jobs[inFront[k]] == front[inFront[k]];
      inFront + (if CityKey(jobs[n].location) == city then [n] else [])
  }

  /** Every job with key `city` has its position listed. */
  lemma {:induction false} CityIndicesComplete(jobs: seq<Job>, city: string)
    ensures forall i :: 0 <= i < |jobs| && CityKey(jobs[i].location) == city ==> i in CityIndices(jobs, city)
  {
    if |jobs| > 0 {
      var n := |jobs| - 1;
      CityIndicesComplete(jobs[..n], city);
      assert forall i :: 0 <= i < n ==> jobs[i] == jobs[..n][i];
    }
  }

  /** A city's group lists exactly the jobs with that key, in the order they came in. */
  lemma {:induction false} GroupInInputOrder(jobs: seq<Job>, city: string)
    ensures forall i :: 0 <= i < |jobs| && CityKey(jobs[i].location) == city ==> i in CityIndices(jobs, city)
    ensures |JobsIn(jobs, city)| == |CityIndices(jobs, city)|
    ensures forall k :: 0 <= k < |JobsIn(jobs, city)| ==> JobsIn(jobs, city)[k] == jobs[CityIndices(jobs, city)[k]]
  {
    CityIndicesComplete(jobs, city);
    if |jobs| > 0 {
      var n := |jobs| - 1;
      var front := jobs[..n];
      GroupInInputOrder(front, city);
      var g, idx := JobsIn(front, city), CityIndices(front, city);
      assert |g| == |idx|;
      forall k | 0 <= k < |JobsIn(jobs, city)|
        ensures JobsIn(jobs, city)[k] == jobs[CityIndices(jobs, city)[k]]
      {
        if k < |g| {
          assert JobsIn(jobs, city)[k] == g[k] && CityIndices(jobs, city)[k] == idx[k];
          assert front[idx[k]] == jobs[idx[k]];
        }
      }
    }
  }

  /** The city headings, top to bottom. */
  function Headings(sections: seq<Section>): seq<string>
  {
    seq(|sections|, k requires 0 <= k < |sections| => sections[k].city)
  }

  /** An ascending list of keys is strictly increasing between any two positions and has no duplicate. */
  lemma AscendingDistinct(s: seq<string>)
    requires Ascending(s)
    ensures forall i, j :: 0 <= i < j < |s| ==> Below(s[i], s[j])
    ensures Distinct(s)
  {
    AscendingStrict(s);
    forall i, j | 0 <= i < j < |s| ensures s[i] != s[j] {
      if s[i] == s[j] {
        BelowIrreflexive(s[i]);
      }
    }
  }

  /** The job lines of one city: `enumerate(city_jobs, 1)`, each with its remote flag. */
  function Numbered(cityJobs: seq<Job>): seq<Entry>
  {
    seq(|cityJobs|, i requires 0 <= i < |cityJobs| => Entry(i + 1, cityJobs[i], IsRemote(cityJobs[i])))
  }

  /** The lines of a city list its jobs in order, numbered 1, 2, ..., each flagged remote iff its `remote` is "1". */
  lemma NumberedLines(cityJobs: seq<Job>)
    ensures JobsOf(Numbered(cityJobs)) == cityJobs
    ensures forall i :: 0 <= i < |Numbered(cityJobs)| ==>
      Numbered(cityJobs)[i].number == i + 1 && (Numbered(cityJobs)[i].remote <==> cityJobs[i].remote == JString("1"))
  {
  }

  /** The loop over `enumerate(city_jobs, 1)`. */
  method NumberJobs(cityJobs: seq<Job>) returns (entries: seq<Entry>)
    ensures entries == Numbered(cityJobs)
  {
    entries := [];
    for i := 0 to |cityJobs|
      invariant entries == Numbered(cityJobs[..i])
    {
      var job := cityJobs[i];
      entries := entries + [Entry(i + 1, job, job.remote == JString("1"))];
    }
    assert cityJobs[..|cityJobs|] == cityJobs;
  }

  /** The sections for the cities `cs`, in that order. */
  function Layout(jobs: seq<Job>, cs: seq<string>): seq<Section>
  {
    if |cs| == 0 then []
    else
      var n := |cs| - 1;
      Layout(jobs, cs[..n]) + [Section(cs[n], Numbered(JobsIn(jobs, cs[n])))]
  }

  /** The sections follow `cs`, each listing the numbered jobs of its city. */
  lemma {:induction false} LayoutSections(jobs: seq<Job>, cs: seq<string>)
    ensures |Layout(jobs, cs)| == |cs|
    ensures forall k :: 0 <= k < |cs| ==> Layout(jobs, cs)[k] == Section(cs[k], Numbered(JobsIn(jobs, cs[k])))
  {
    if |cs| > 0 {
      var n := |cs| - 1;
      LayoutSections(jobs, cs[..n]);
      var all := Layout(jobs, cs);
      assert forall k :: 0 <= k < n ==> all[k] == Layout(jobs, cs[..n])[k] && cs[k] == cs[..n][k];
    }
  }

  /** All sections together show the groups of `cs` one after the other. */
  lemma {:induction false} LayoutShown(jobs: seq<Job>, cs: seq<string>)
    ensures Shown(Layout(jobs, cs)) == Flatten(jobs, cs)
  {
    if |cs| > 0 {
      var n := |cs| - 1;
      LayoutShown(jobs, cs[..n]);
      var front := Layout(jobs, cs[..n]);
      var all := front + [Section(cs[n], Numbered(JobsIn(jobs, cs[n])))];
      assert Layout(jobs, cs) == all;
      assert all[..|all| - 1] == front;
      NumberedLines(JobsIn(jobs, cs[n]));
    }
  }

  /**
   * Laying out every city once, in ascending order: headings strictly ascending and covering
   * every city, each section listing its city's jobs numbered from 1, and every job shown
   * exactly as often as it occurs.
   */
  lemma LayoutOfSortedCities(jobs: seq<Job>, sorted: seq<string>)
    requires Ascending(sorted) && Elems(sorted) == CitiesOf(jobs)
    ensures forall k, l :: 0 <= k < l < |Layout(jobs, sorted)| ==> Below(Layout(jobs, sorted)[k].city, Layout(jobs, sorted)[l].city)
    ensures Elems(Headings(Layout(jobs, sorted))) == CitiesOf(jobs)
    ensures forall k :: 0 <= k < |Layout(jobs, sorted)| ==>
      Layout(jobs, sorted)[k].entries == Numbered(JobsIn(jobs, Layout(jobs, sorted)[k].city))
    ensures multiset(Shown(Layout(jobs, sorted))) == multiset(jobs)
  {
    var sections := Layout(jobs, sorted);
    LayoutSections(jobs, sorted);
    LayoutShown(jobs, sorted);
    AscendingDistinct(sorted);
    Partition(jobs, sorted);
    assert Headings(sections) == sorted;
  }

  /** The sorted keys list the same cities as the dict. */
  lemma SortedKeys(order: seq<string>)
    requires Distinct(order)
    ensures Elems(SortCities(order)) == Elems(order)
  {
    var sorted := SortCities(order);
    forall c ensures c in sorted <==> c in order {
      assert c in sorted <==> c in multiset(sorted);
      assert c in order <==> c in multiset(order);
    }
  }

  /** The loop over `sorted(cities.items())`: one section per key, with its numbered job lines. */
  method BuildSections(jobs: seq<Job>, sorted: seq<string>, cities: map<string, seq<Job>>) returns (sections: seq<Section>)
    requires forall c :: c in sorted ==> c in cities && cities[c] == JobsIn(jobs, c)
    ensures sections == Layout(jobs, sorted)
  {
    sections := [];
    for k := 0 to |sorted|
      invariant sections == Layout(jobs, sorted[..k])
    {
      var city := sorted[k];
      var entries := NumberJobs(cities[city]);
      assert sorted[..k + 1][..k] == sorted[..k];
      sections := sections + [Section(city, entries)];
    }
    assert sorted[..|sorted|] == sorted;
  }

  /**
   * The data `display_jobs` lays out: one section per city, cities in ascending order, each
   * listing that city's jobs in input order, numbered from 1, with the remote flag.
   */
  method DisplayJobs(jobs: seq<Job>) returns (sections: seq<Section>)
    ensures forall k, l :: 0 <= k < l < |sections| ==> Below(sections[k].city, sections[l].city)
    ensures Elems(Headings(sections)) == CitiesOf(jobs)
    ensures forall k :: 0 <= k < |sections| ==> sections[k].entries == Numbered(JobsIn(jobs, sections[k].city))
    ensures multiset(Shown(sections)) == multiset(jobs)
  {
    var order, cities := GroupByCity(jobs);
    var sorted := SortCities(order);
    SortedKeys(order);
    forall c | c in sorted ensures c in cities {
      assert c in Elems(sorted);
    }
    sections := BuildSections(jobs, sorted, cities);
    LayoutOfSortedCities(jobs, sorted);
  }
}
