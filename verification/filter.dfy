/**
 * `extract_jobs_from_html`: capture the `allJobs` literal, decode it, keep the Product Support
 * jobs in Asia Pacific and project each onto five display fields. Any exception on the way
 * turns the whole result into the empty list.
 */
module Filter {
  import opened Results
  import opened Text
  import opened Json
  import opened Capture

  const TeamWanted: string := "product support"
  const RegionWanted: string := "asia pacific"
  /** The default of every projected field that is absent. */
  const NotAvailable: JsonValue := JString("N/A")
  /** The default of `team` and `region` in the keep test. */
  const Missing: JsonValue := JString("")

  /** One kept job, as the page lists it. */
  datatype Job = Job(jobTitle: JsonValue, team: JsonValue, location: string, region: JsonValue, remote: JsonValue)

  /**
   * The exceptions raised inside the loop's reach, all caught by the `except` clause; a decode
   * error is `parse` returning None.
   */
  datatype Failure =
    | NotIterable  // the decoded value cannot be iterated by `for`
    | NoGet        // an element is not a dict: `job.get` raised
    | NoLower      // `team` or `region` is not a string: `.lower()` raised

  /** The elements a `for` loop visits: a list's items, a dict's keys, a string's characters. */
  function Elements(v: JsonValue): (r: Result<seq<JsonValue>, Failure>)
    ensures r.Err? <==> !(v.JArray? || v.JObject? || v.JString?)
    ensures r.Ok? && !v.JArray? ==> forall i :: 0 <= i < |r.value| ==> r.value[i].JString?
  {
    match v
    case JArray(items) => Ok(items)
    case JObject(ms) => Ok(seq(|ms|, i requires 0 <= i < |ms| => JString(ms[i].0)))
    case JString(s) => Ok(seq(|s|, i requires 0 <= i < |s| => JString([s[i]])))
    case _ => Err(NotIterable)
  }

  /** The keep test on one element: whether it is kept, or the exception it raises. */
  function Verdict(job: JsonValue): (r: Result<bool, Failure>)
    ensures r.Err? <==>
      || !job.JObject?
      || (Lookup(job.members, "team").Some? && !Lookup(job.members, "team").value.JString?)
      || (Lookup(job.members, "region").Some? && !Lookup(job.members, "region").value.JString?)
  {
    if !job.JObject? then Err(NoGet)
    else
      var team := Get(job.members, "team", Missing);
      if !team.JString? then Err(NoLower)
      else
        var region := Get(job.members, "region", Missing);
        if !region.JString? then Err(NoLower)
        else Ok(Lower(team.s) == TeamWanted && Lower(region.s) == RegionWanted)
  }

  predicate Keeps(job: JsonValue)
  {
    Verdict(job) == Ok(true)
  }

  /** Every element passes the keep test without raising. */
  predicate AllChecked(items: seq<JsonValue>)
  {
    forall i :: 0 <= i < |items| ==> Verdict(items[i]).Ok?
  }

  /** The five-field record appended for a kept job. */
  function Project(job: JsonValue): (r: Job)
    requires job.JObject?
    ensures Lookup(job.members, "team").Some? ==> r.team == Lookup(job.members, "team").value
    ensures Lookup(job.members, "region").Some? ==> r.region == Lookup(job.members, "region").value
    ensures Lookup(job.members, "city").None? && Lookup(job.members, "country").None? ==> r.location == "N/A, N/A"
  {
    var ms := job.members;
    Job(Get(ms, "job_title", NotAvailable),
        Get(ms, "team", NotAvailable),
        Str(Get(ms, "city", NotAvailable)) + ", " + Str(Get(ms, "country", NotAvailable)),
        Get(ms, "region", NotAvailable),
        Get(ms, "remote", NotAvailable))
  }

  /** The projections of the kept elements, in input order. */
  function Selected(items: seq<JsonValue>): (r: seq<Job>)
    ensures |r| <= |items|
  {
    if |items| == 0 then []
    else
      var last := items[|items| - 1];
      Selected(items[..|items| - 1]) + (if Keeps(last) then [Project(last)] else [])
  }

  /** What `extract_jobs_from_html` returns, with `parse` standing for `json.loads`. */
  function ExtractJobs(html: string, parse: string -> Option<JsonValue>): (r: seq<Job>)
    ensures r != [] ==>
      && AllJobsLiteral(html).Some?
      && parse(AllJobsLiteral(html).value).Some?
      && parse(AllJobsLiteral(html).value).value.JArray?
      && |r| <= |parse(AllJobsLiteral(html).value).value.items|
  {
    match AllJobsLiteral(html)
    case None => []
    case Some(literal) =>
      match parse(literal)
      case None => []
      case Some(decoded) =>
        match Elements(decoded)
        case Err(_) => []
        case Ok(items) =>
          assert !decoded.JArray? && |items| > 0 ==> items[0].JString? && Verdict(items[0]).Err?;
          if AllChecked(items) then Selected(items) else []
  }

  /** The extraction as the source runs it: one pass that appends kept jobs and gives up on the first exception. */
  method ExtractJobsFromHtml(html: string, parse: string -> Option<JsonValue>) returns (jobs: seq<Job>)
    ensures jobs == ExtractJobs(html, parse)
  {
    var literal := AllJobsLiteral(html);
    if literal.None? {
      return [];
    }
    var decoded := parse(literal.value);
    if decoded.None? {
      return [];
    }
    var elements := Elements(decoded.value);
    if elements.Err? {
      return [];
    }
    var items := elements.value;
    var filtered := [];
    for i := 0 to |items|
      invariant AllChecked(items[..i])
      invariant filtered == Selected(items[..i])
    {
      var job := items[i];
      assert items[..i + 1] == items[..i] + [job];
      if !job.JObject? {
        assert Verdict(items[i]).Err?;
        return [];
      }
      var team := Get(job.members, "team", Missing);
      if !team.JString? {
        assert Verdict(items[i]).Err?;
        return [];
      }
      var region := Get(job.members, "region", Missing);
      if !region.JString? {
        assert Verdict(items[i]).Err?;
        return [];
      }
      var keep := Lower(team.s) == TeamWanted && Lower(region.s) == RegionWanted;
      assert Verdict(job) == Ok(keep);
      if keep {
        filtered := filtered + [Project(job)];
      }
    }
    assert items[..|items|] == items;
    return filtered;
  }
}

/** What the extraction promises about its result. */
module FilterFacts {
  import opened Results
  import opened Text
  import opened Json
  import opened Capture
  import opened Filter

  /** The positions of the kept elements, in increasing order. */
  function KeptIndices(items: seq<JsonValue>): (idx: seq<nat>)
    ensures forall k :: 0 <= k < |idx| ==> idx[k] < |items| && Keeps(items[idx[k]])
    ensures forall k, l :: 0 <= k < l < |idx| ==> idx[k] < idx[l]
    ensures forall i :: 0 <= i < |items| && Keeps(items[i]) ==> i in idx
  {
    if |items| == 0 then []
    else
      var n := |items| - 1;
      var front := items[..n];
      assert forall j :: 0 <= j < n ==> front[j] == items[j];
      KeptIndices(front) + (if Keeps(items[n]) then [n] else [])
  }

  /**
   * The result is an order-preserving subsequence of the projected input: its k-th job is the
   * projection of the k-th kept element, so there are exactly as many jobs as kept elements.
   */
  lemma {:induction false} SelectedIsSubsequence(items: seq<JsonValue>)
    ensures |Selected(items)| == |KeptIndices(items)| <= |items|
    ensures forall k :: 0 <= k < |Selected(items)| ==>
      items[KeptIndices(items)[k]].JObject? && Selected(items)[k] == Project(items[KeptIndices(items)[k]])
  {
    if |items| > 0 {
      var n := |items| - 1;
      var front := items[..n];
      SelectedIsSubsequence(front);
      assert forall j :: 0 <= j < n ==> front[j] == items[j];
    }
  }

  /** Every element is kept exactly when the result is as long as the input. */
  lemma {:induction false} SelectedAll(items: seq<JsonValue>)
    ensures |Selected(items)| == |items| <==> forall i :: 0 <= i < |items| ==> Keeps(items[i])
  {
    if |items| > 0 {
      var n := |items| - 1;
      var front := items[..n];
      SelectedAll(front);
      var tail := if Keeps(items[n]) then [Project(items[n])] else [];
      assert Selected(items) == Selected(front) + tail;
      if |Selected(items)| == |items| {
        assert |Selected(front)| == n && Keeps(items[n]);
        forall i | 0 <= i < |items|
          ensures Keeps(items[i])
        {
          if i < n {
            assert front[i] == items[i];
          }
        }
      }
      if forall i :: 0 <= i < |items| ==> Keeps(items[i]) {
        forall i | 0 <= i < n
          ensures Keeps(front[i])
        {
          assert front[i] == items[i];
        }
        assert |tail| == 1;
      }
    }
  }

  /** A present field holding a string whose lower-case is `wanted`. */
  predicate Matches(field: Option<JsonValue>, wanted: string)
  {
    field.Some? && field.value.JString? && Lower(field.value.s) == wanted
  }

  /**
   * The keep test, case-insensitive on both fields: an element is kept iff it is an object whose
   * `team` is present and lower-cases to "product support" and whose `region` is present and
   * lower-cases to "asia pacific". A missing field never matches.
   */
  lemma KeepsIff(job: JsonValue)
    ensures Keeps(job) <==>
      job.JObject? && Matches(Lookup(job.members, "team"), TeamWanted) && Matches(Lookup(job.members, "region"), RegionWanted)
  {
    if job.JObject? {
      assert |Lower("")| == 0;
    }
  }

  /** A present field holding a string that spells `wanted` up to ASCII case. */
  predicate Spells(field: Option<JsonValue>, wanted: string)
  {
    field.Some? && field.value.JString? && CaseVariant(field.value.s, wanted)
  }

  /**
   * The keep test ignores case and nothing else: "Product Support", "PRODUCT SUPPORT" and
   * "product support" all pass, while a different spelling, extra spaces or a missing field do not.
   */
  lemma KeepsIgnoringCase(job: JsonValue)
    ensures Keeps(job) <==>
      job.JObject? && Spells(Lookup(job.members, "team"), TeamWanted) && Spells(Lookup(job.members, "region"), RegionWanted)
  {
    KeepsIff(job);
    assert NoUpper(TeamWanted) && NoUpper(RegionWanted);
    if job.JObject? {
      var team, region := Lookup(job.members, "team"), Lookup(job.members, "region");
      if team.Some? && team.value.JString? {
        LowerMatches(team.value.s, TeamWanted);
      }
      if region.Some? && region.value.JString? {
        LowerMatches(region.value.s, RegionWanted);
      }
    }
  }

  /**
   * Each job of the result carries the kept element's fields: `team` and `region` are its
   * original strings (original case); `job_title` and `remote` are its values or "N/A" when
   * absent; `location` is city and country, each defaulted to "N/A" separately, joined by ", ".
   */
  lemma KeptFields(items: seq<JsonValue>, k: nat)
    requires k < |Selected(items)|
    ensures (
      SelectedIsSubsequence(items);
      var i := KeptIndices(items)[k];
      var job := Selected(items)[k];
      var ms := items[i].members;
      && i < |items| && items[i].JObject?
      && Lookup(ms, "team") == Some(job.team) && job.team.JString? && Lower(job.team.s) == TeamWanted
      && Lookup(ms, "region") == Some(job.region) && job.region.JString? && Lower(job.region.s) == RegionWanted
      && job.jobTitle == (if Lookup(ms, "job_title").Some? then Lookup(ms, "job_title").value else NotAvailable)
      && job.remote == (if Lookup(ms, "remote").Some? then Lookup(ms, "remote").value else NotAvailable)
      && job.location ==
           (if Lookup(ms, "city").Some? then Str(Lookup(ms, "city").value) else "N/A")
           + ", " +
           (if Lookup(ms, "country").Some? then Str(Lookup(ms, "country").value) else "N/A"))
  {
    SelectedIsSubsequence(items);
    var i := KeptIndices(items)[k];
    KeepsIff(items[i]);
  }

  /** Without a match for the pattern the result is empty, and nothing is raised. */
  lemma NoMatchNoJobs(html: string, parse: string -> Option<JsonValue>)
    requires forall p, e :: !MatchAt(html, p, e)
    ensures ExtractJobs(html, parse) == []
  {
    LiteralShape(html);
  }

  /**
   * All or nothing: when the captured text does not decode, or decodes to something whose
   * elements include one that raises in the keep test, the result is empty, whatever the other
   * elements are.
   */
  lemma FailureGivesNothing(html: string, parse: string -> Option<JsonValue>, items: seq<JsonValue>, i: nat)
    requires AllJobsLiteral(html).Some?
    requires parse(AllJobsLiteral(html).value).None? ||
             (parse(AllJobsLiteral(html).value) == Some(JArray(items)) && i < |items| && Verdict(items[i]).Err?)
    ensures ExtractJobs(html, parse) == []
  {
  }

  /**
   * A decoded value that is not a list gives the empty result: a dict's keys and a string's
   * characters are strings, on which `.get` raises, and other values cannot be iterated.
   */
  lemma NotAListGivesNothing(html: string, parse: string -> Option<JsonValue>)
    requires AllJobsLiteral(html).Some?
    requires parse(AllJobsLiteral(html).value).Some?
    requires !parse(AllJobsLiteral(html).value).value.JArray?
    ensures ExtractJobs(html, parse) == []
  {
    var decoded := parse(AllJobsLiteral(html).value).value;
    match Elements(decoded)
    case Err(_) =>
    case Ok(items) =>
      if |items| > 0 {
        assert items[0].JString?;
        assert Verdict(items[0]).Err?;
      }
  }

  /** A decoded list whose elements all pass the keep test gives exactly the selected jobs. */
  lemma ListGivesSelected(html: string, parse: string -> Option<JsonValue>, items: seq<JsonValue>)
    requires AllJobsLiteral(html).Some?
    requires parse(AllJobsLiteral(html).value) == Some(JArray(items))
    requires AllChecked(items)
    ensures ExtractJobs(html, parse) == Selected(items)
  {
  }

  /** The raw elements that pass the keep test, in order. */
  function KeptItems(items: seq<JsonValue>): seq<JsonValue>
  {
    if |items| == 0 then []
    else
      var n := |items| - 1;
      KeptItems(items[..n]) + (if Keeps(items[n]) then [items[n]] else [])
  }

  /** Every record that survives the keep test passes it. */
  lemma {:induction false} KeptItemsKeep(items: seq<JsonValue>)
    ensures forall j :: 0 <= j < |KeptItems(items)| ==> Keeps(KeptItems(items)[j])
  {
    if |items| > 0 {
      KeptItemsKeep(items[..|items| - 1]);
    }
  }

  /** Selecting from the kept records gives the same jobs as selecting from all of them. */
  lemma {:induction false} SelectedOfKeptItems(items: seq<JsonValue>)
    ensures Selected(KeptItems(items)) == Selected(items)
  {
    if |items| > 0 {
      var n := |items| - 1;
      SelectedOfKeptItems(items[..n]);
      var kept := KeptItems(items[..n]);
      if Keeps(items[n]) {
        var both := kept + [items[n]];
        assert KeptItems(items) == both;
        assert both[..|both| - 1] == kept && both[|both| - 1] == items[n];
        assert Selected(both) == Selected(kept) + [Project(items[n])];
        assert Selected(items) == Selected(items[..n]) + [Project(items[n])];
      } else {
        assert KeptItems(items) == kept;
      }
    }
  }

  /** A list whose records all pass the keep test is left as it is by the filter. */
  lemma {:induction false} KeptItemsOfAllKept(items: seq<JsonValue>)
    requires forall j :: 0 <= j < |items| ==> Keeps(items[j])
    ensures KeptItems(items) == items
  {
    if |items| > 0 {
      var n := |items| - 1;
      KeptItemsOfAllKept(items[..n]);
      assert items[..n] + [items[n]] == items;
    }
  }

  /** Filtering the raw records is idempotent, and selecting after it changes nothing. */
  lemma FilterIdempotent(items: seq<JsonValue>)
    ensures KeptItems(KeptItems(items)) == KeptItems(items)
    ensures Selected(KeptItems(items)) == Selected(items)
  {
    KeptItemsKeep(items);
    KeptItemsOfAllKept(KeptItems(items));
    SelectedOfKeptItems(items);
  }

  /** `ms + [m]` looks up like `ms` for any other key, and gives `m`'s value for its own key. */
  lemma LookupAppend(ms: seq<(string, JsonValue)>, m: (string, JsonValue), key: string)
    ensures Lookup(ms + [m], key) == if m.0 == key then Some(m.1) else Lookup(ms, key)
  {
    assert (ms + [m])[..|ms|] == ms;
  }

  /** An example record: a QA Engineer job in Product Support, Tokyo, Japan. */
  const TokyoMembers: seq<(string, JsonValue)> :=
    [("job_title", JString("QA Engineer")), ("team", JString("product support")),
     ("region", JString("asia pacific")), ("city", JString("Tokyo")),
     ("country", JString("Japan")), ("remote", JString("0"))]

  lemma TokyoLookups()
    ensures Lookup(TokyoMembers, "job_title") == Some(JString("QA Engineer"))
    ensures Lookup(TokyoMembers, "team") == Some(JString("product support"))
    ensures Lookup(TokyoMembers, "region") == Some(JString("asia pacific"))
    ensures Lookup(TokyoMembers, "city") == Some(JString("Tokyo"))
    ensures Lookup(TokyoMembers, "country") == Some(JString("Japan"))
    ensures Lookup(TokyoMembers, "remote") == Some(JString("0"))
  {
    var ms := TokyoMembers;
    var keys := ["job_title", "team", "region", "city", "country", "remote"];
    assert forall j :: 0 <= j < 6 ==> ms[j].0 == keys[j];
    assert keys[1][0] != keys[3][0] && keys[2][2] != keys[5][2];
    assert forall i, j :: 0 <= i < j < 6 ==> keys[i] != keys[j];
    var k := 0;
    while k < 6
      invariant 0 <= k <= 6
      invariant forall j :: 0 <= j < k ==> Lookup(ms[..k], keys[j]) == Some(ms[j].1)
    {
      assert ms[..k + 1] == ms[..k] + [ms[k]];
      forall j | 0 <= j <= k
        ensures Lookup(ms[..k + 1], keys[j]) == Some(ms[j].1)
      {
        LookupAppend(ms[..k], ms[k], keys[j]);
      }
      k := k + 1;
    }
    assert ms[..6] == ms;
    assert forall j :: 0 <= j < 6 ==> Lookup(ms, keys[j]) == Some(ms[j].1);
    assert Lookup(ms, keys[0]) == Some(ms[0].1);
  }

  /** An example: one Product Support job in Tokyo is kept, located "Tokyo, Japan". */
  lemma TokyoExample()
    ensures Selected([JObject(TokyoMembers)]) ==
      [Job(JString("QA Engineer"), JString("product support"), "Tokyo, Japan", JString("asia pacific"), JString("0"))]
  {
    TokyoLookups();
    var job := JObject(TokyoMembers);
    assert Lower("product support") == TeamWanted;
    assert Lower("asia pacific") == RegionWanted;
    assert Keeps(job);
    assert [job][..0] == [];
    assert Str(JString("Tokyo")) + ", " + Str(JString("Japan")) == "Tokyo, Japan";
    assert Project(job) == Job(JString("QA Engineer"), JString("product support"), "Tokyo, Japan", JString("asia pacific"), JString("0"));
  }

  /** The dict `extract_jobs_from_html` appends for a kept job, as `json.loads` would hand it back. */
  function AsRecord(job: Job): JsonValue
  {
    JObject([("job_title", job.jobTitle), ("team", job.team), ("location", JString(job.location)),
             ("region", job.region), ("remote", job.remote)])
  }

  /**
   * Filtering is not idempotent on its own output: an extracted record is kept again, but it has
   * no `city` or `country`, so its location comes back as "N/A, N/A".
   */
  lemma ReprojectionLosesLocation(job: Job)
    requires job.team.JString? && Lower(job.team.s) == TeamWanted
    requires job.region.JString? && Lower(job.region.s) == RegionWanted
    ensures Selected([AsRecord(job)]) == [Job(job.jobTitle, job.team, "N/A, N/A", job.region, job.remote)]
  {
    var ms := AsRecord(job).members;
    assert forall j :: 0 <= j < |ms| ==> |ms[j].0| > 4 || ms[j].0[0] == 't';
    LookupAbsent(ms, "city");
    LookupAbsent(ms, "country");
    assert ms[3].0[2] != ms[4].0[2];
    LookupLast(ms, "team", 1);
    LookupLast(ms, "region", 3);
    LookupLast(ms, "job_title", 0);
    LookupLast(ms, "remote", 4);
    assert Keeps(AsRecord(job));
    assert [AsRecord(job)][..0] == [];
  }

  /** Every job the filter returns is kept again when filtered a second time, with its location lost. */
  lemma FilterTwiceLosesLocation(items: seq<JsonValue>, k: nat)
    requires k < |Selected(items)|
    ensures (
      var job := Selected(items)[k];
      Selected([AsRecord(job)]) == [Job(job.jobTitle, job.team, "N/A, N/A", job.region, job.remote)])
  {
    KeptFields(items, k);
    ReprojectionLosesLocation(Selected(items)[k]);
  }

  /** Case does not matter: "Product Support" in "ASIA PACIFIC" is kept; a sales job is not. */
  lemma CaseExamples()
    ensures Keeps(JObject([("team", JString("Product Support")), ("region", JString("ASIA PACIFIC"))]))
    ensures !Keeps(JObject([("job_title", JString("Sales Rep")), ("team", JString("sales")), ("region", JString("asia pacific"))]))
  {
    assert Lower("Product Support") == TeamWanted;
    assert Lower("ASIA PACIFIC") == RegionWanted;
    assert |Lower("sales")| != |TeamWanted|;
  }
}
