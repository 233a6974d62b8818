/**
 * The chart data of the report (report_data.py): per-metric series with one
 * element per project, in project order (create_project_summary_data_dict),
 * and their application-wide totals (create_application_summary_data_dict).
 */
module SummaryData {

  import opened Wrappers
  import opened OrderedDicts

  /** A value of a project's metric record: a count, or text (projectLink). */
  datatype Value = Int(n: int) | Str(s: string)

  /** projectData: project name to that project's metric record. */
  type ProjectRecord = Dict<string, Value>
  type ProjectData = Dict<string, ProjectRecord>

  /** A value of projectSummaryData: a per-project series, the list of
      project names, or the CVSS version text. */
  datatype Column = Series(values: seq<Value>) | Names(names: seq<string>) | Version(version: string)

  /** A value of applicationSummaryData: a metric's total, or a copied
      column (cvssVersion). */
  datatype Summary = Total(total: int) | Copied(column: Column)

  const ProjectNamesKey := "projectNames"
  const CvssVersionKey := "cvssVersion"

  /** Metrics that get no column. */
  predicate NotCharted(metric: string)
  {
    metric == "P1InventoryItems" || metric == "projectLink"
  }

  /** Metrics whose values are not collected into their column. */
  predicate NotCollected(metric: string)
  {
    NotCharted(metric) || metric == CvssVersionKey
  }

  /** The (metric, value) pairs the nested loops visit: every project's
      record, in project order, each in its own key order. */
  function Stream(projectData: ProjectData): seq<(string, Value)>
  {
    if projectData == [] then []
    else Stream(projectData[..|projectData| - 1]) + projectData[|projectData| - 1].1
  }

  /** The metrics of pairs that get a column, in visiting order. */
  function ChartedMetrics(pairs: seq<(string, Value)>): seq<string>
  {
    if pairs == [] then []
    else
      var ms := ChartedMetrics(pairs[..|pairs| - 1]);
      var metric := pairs[|pairs| - 1].0;
      if NotCharted(metric) then ms else ms + [metric]
  }

  /** The values of metric in pairs, in visiting order. */
  function ValuesOf(pairs: seq<(string, Value)>, metric: string): seq<Value>
  {
    if pairs == [] then []
    else
      var vs := ValuesOf(pairs[..|pairs| - 1], metric);
      if pairs[|pairs| - 1].0 == metric then vs + [pairs[|pairs| - 1].1] else vs
  }

  /** The first pass: projectSummaryData[metric] = [] for each charted
      metric, as assignments in visiting order. */
  function Skeleton(pairs: seq<(string, Value)>): seq<(string, Column)>
  {
    if pairs == [] then []
    else
      var sk := Skeleton(pairs[..|pairs| - 1]);
      var metric := pairs[|pairs| - 1].0;
      if NotCharted(metric) then sk else sk + [(metric, Series([]))]
  }

  /** projectSummaryData[metric].append(value) */
  function AppendValue(d: Dict<string, Column>, metric: string, value: Value): Dict<string, Column>
  {
    var current: Option<Column> := Get(d, metric);
    match current
    case Some(Series(vs)) => Put(d, metric, Series(vs + [value]))
    case _ => d
  }

  /** The second pass over pairs, starting from d. */
  function AppendAll(d: Dict<string, Column>, pairs: seq<(string, Value)>): Dict<string, Column>
  {
    if pairs == [] then d
    else
      var e := AppendAll(d, pairs[..|pairs| - 1]);
      var (metric, value) := pairs[|pairs| - 1];
      if NotCollected(metric) then e else AppendValue(e, metric, value)
  }

  /** What create_project_summary_data_dict returns. */
  function ProjectSummaryData(projectData: ProjectData): Dict<string, Column>
  {
    var pairs := Stream(projectData);
    Put(AppendAll(PutAll([], Skeleton(pairs)), pairs), ProjectNamesKey, Names(Keys(projectData)))
  }

  /** The keys of projectSummaryData: each charted metric once, in order of
      first appearance, then projectNames. */
  function SummaryKeys(projectData: ProjectData): seq<string>
  {
    var ks := Dedup(ChartedMetrics(Stream(projectData)));
    if ProjectNamesKey in ks then ks else ks + [ProjectNamesKey]
  }

  lemma StreamStep(projectData: ProjectData, i: nat)
    requires i < |projectData|
    ensures Stream(projectData[..i + 1]) == Stream(projectData[..i]) + projectData[i].1
  {
    assert projectData[..i + 1][..i] == projectData[..i];
  }

  lemma SkeletonStep(prefix: seq<(string, Value)>, record: ProjectRecord, j: nat,
                     before: Dict<string, Column>, after: Dict<string, Column>)
    requires j < |record|
    requires before == PutAll([], Skeleton(prefix + record[..j]))
    requires after == if NotCharted(record[j].0) then before else Put(before, record[j].0, Series([]))
    ensures after == PutAll([], Skeleton(prefix + record[..j + 1]))
  {
    var p := prefix + record[..j];
    assert prefix + record[..j + 1] == p + [record[j]];
    assert (p + [record[j]])[..|p|] == p;
    if !NotCharted(record[j].0) {
      var sk := Skeleton(p) + [(record[j].0, Series([]))];
      assert sk[..|sk| - 1] == Skeleton(p);
    }
  }

  lemma AppendStep(base: Dict<string, Column>, prefix: seq<(string, Value)>, record: ProjectRecord, j: nat,
                   before: Dict<string, Column>, after: Dict<string, Column>)
    requires j < |record|
    requires before == AppendAll(base, prefix + record[..j])
    requires after == if NotCollected(record[j].0) then before else AppendValue(before, record[j].0, record[j].1)
    ensures after == AppendAll(base, prefix + record[..j + 1])
  {
    var p := prefix + record[..j];
    assert prefix + record[..j + 1] == p + [record[j]];
    assert (p + [record[j]])[..|p|] == p;
  }

  /** create_project_summary_data_dict: a first pass giving each charted
      metric an empty list, a second appending each project's value of each
      collected metric to its list, and the project names last. The result
      has one column per charted metric; a collected metric's column lists
      its values in project order, cvssVersion's stays empty. */
  method CreateProjectSummaryData(projectData: ProjectData) returns (projectSummaryData: Dict<string, Column>)
    ensures projectSummaryData == ProjectSummaryData(projectData)
    ensures DistinctKeys(projectSummaryData)
    ensures Keys(projectSummaryData) == SummaryKeys(projectData)
    ensures Get(projectSummaryData, ProjectNamesKey) == Some(Names(Keys(projectData)))
    ensures forall metric :: metric != ProjectNamesKey && metric in ChartedMetrics(Stream(projectData)) ==>
      Get(projectSummaryData, metric) ==
        Some(Series(if metric == CvssVersionKey then [] else ValuesOf(Stream(projectData), metric)))
  {
    projectSummaryData := [];
    for i := 0 to |projectData|
      invariant projectSummaryData == PutAll([], Skeleton(Stream(projectData[..i])))
    {
      var record := projectData[i].1;
      ghost var prefix := Stream(projectData[..i]);
      assert prefix + record[..0] == prefix;
      for j := 0 to |record|
        invariant projectSummaryData == PutAll([], Skeleton(prefix + record[..j]))
      {
        ghost var before := projectSummaryData;
        var metric := record[j].0;
        if !NotCharted(metric) {
          projectSummaryData := Put(projectSummaryData, metric, Series([]));
        }
        SkeletonStep(prefix, record, j, before, projectSummaryData);
      }
      assert record[..|record|] == record;
      StreamStep(projectData, i);
    }
    assert projectData[..|projectData|] == projectData;

    ghost var skeleton := projectSummaryData;
    assert Stream(projectData[..0]) == [];
    for i := 0 to |projectData|
      invariant projectSummaryData == AppendAll(skeleton, Stream(projectData[..i]))
    {
      var record := projectData[i].1;
      ghost var prefix := Stream(projectData[..i]);
      assert prefix + record[..0] == prefix;
      for j := 0 to |record|
        invariant projectSummaryData == AppendAll(skeleton, prefix + record[..j])
      {
        ghost var before := projectSummaryData;
        var (metric, value) := record[j];
        if !NotCollected(metric) {
          var current: Option<Column> := Get(projectSummaryData, metric);
          match current
          case Some(Series(vs)) =>
            projectSummaryData := Put(projectSummaryData, metric, Series(vs + [value]));
          case _ =>
        }
        AppendStep(skeleton, prefix, record, j, before, projectSummaryData);
      }
      assert record[..|record|] == record;
      StreamStep(projectData, i);
    }

    projectSummaryData := Put(projectSummaryData, ProjectNamesKey, Names(Keys(projectData)));
    ProjectSummaryMeaning(projectData);
  }

  // ---------------------------------------------------------------------

  /** The metrics that get a column are those of the pairs not excluded. */
  lemma {:induction false} ChartedMetricsMembers(pairs: seq<(string, Value)>)
    ensures forall m :: m in ChartedMetrics(pairs) <==> m in Keys(pairs) && !NotCharted(m)
  {
    if pairs != [] {
      var init := pairs[..|pairs| - 1];
      ChartedMetricsMembers(init);
      assert Keys(pairs) == Keys(init) + [pairs[|pairs| - 1].0];
    }
  }

  /** The first pass names each charted metric, holding an empty list. */
  lemma {:induction false} SkeletonShape(pairs: seq<(string, Value)>)
    ensures Keys(Skeleton(pairs)) == ChartedMetrics(pairs)
    ensures forall m :: LastValue(Skeleton(pairs), m) ==
                        if m in ChartedMetrics(pairs) then Some(Series([])) else None
  {
    if pairs != [] {
      var init := pairs[..|pairs| - 1];
      SkeletonShape(init);
      var metric := pairs[|pairs| - 1].0;
      if !NotCharted(metric) {
        var sk := Skeleton(init) + [(metric, Series([]))];
        assert sk[..|sk| - 1] == Skeleton(init);
        assert Keys(sk) == Keys(Skeleton(init)) + [metric];
      }
    }
  }

  /** The second pass keeps the keys and extends each collected metric's
      list by its values in visiting order. */
  lemma {:induction false} AppendAllShape(d: Dict<string, Column>, pairs: seq<(string, Value)>)
    requires DistinctKeys(d)
    requires forall m :: m in Keys(pairs) && !NotCollected(m) ==> Get(d, m).Some? && Get(d, m).value.Series?
    ensures DistinctKeys(AppendAll(d, pairs))
    ensures Keys(AppendAll(d, pairs)) == Keys(d)
    ensures forall m :: Get(AppendAll(d, pairs), m) ==
                        if !NotCollected(m) && Get(d, m).Some? && Get(d, m).value.Series?
                        then Some(Series(Get(d, m).value.values + ValuesOf(pairs, m)))
                        else Get(d, m)
  {
    if pairs == [] {
      forall m | Get(d, m).Some? && Get(d, m).value.Series?
        ensures Some(Series(Get(d, m).value.values + ValuesOf(pairs, m))) == Get(d, m)
      {
        assert Get(d, m).value.values + [] == Get(d, m).value.values;
      }
    } else {
      var init := pairs[..|pairs| - 1];
      var (metric, value) := pairs[|pairs| - 1];
      assert Keys(pairs) == Keys(init) + [metric];
      AppendAllShape(d, init);
      var e := AppendAll(d, init);
      if NotCollected(metric) {
        assert AppendAll(d, pairs) == e;
        forall m ensures Get(e, m) ==
          if !NotCollected(m) && Get(d, m).Some? && Get(d, m).value.Series?
          then Some(Series(Get(d, m).value.values + ValuesOf(pairs, m)))
          else Get(d, m)
        {
          assert pairs[..|pairs| - 1] == init;
          if !NotCollected(m) {
            assert ValuesOf(pairs, m) == ValuesOf(init, m);
          }
        }
      } else {
        var vs := Get(d, metric).value.values + ValuesOf(init, metric);
        assert Get(e, metric) == Some(Series(vs));
        var w := Put(e, metric, Series(vs + [value]));
        assert AppendAll(d, pairs) == w;
        PutKeys(e, metric, Series(vs + [value]));
        PutDistinct(e, metric, Series(vs + [value]));
        forall m ensures Get(w, m) ==
          if !NotCollected(m) && Get(d, m).Some? && Get(d, m).value.Series?
          then Some(Series(Get(d, m).value.values + ValuesOf(pairs, m)))
          else Get(d, m)
        {
          PutGet(e, metric, Series(vs + [value]), m);
          assert pairs[..|pairs| - 1] == init;
          if m == metric {
            assert ValuesOf(pairs, m) == ValuesOf(init, m) + [value];
            assert vs + [value] == Get(d, m).value.values + (ValuesOf(init, m) + [value]);
          } else {
            assert ValuesOf(pairs, m) == ValuesOf(init, m);
          }
        }
      }
    }
  }

  /** What projectSummaryData holds, key by key. */
  lemma ProjectSummaryMeaning(projectData: ProjectData)
    ensures var psd := ProjectSummaryData(projectData);
      && DistinctKeys(psd)
      && Keys(psd) == SummaryKeys(projectData)
      && Get(psd, ProjectNamesKey) == Some(Names(Keys(projectData)))
      && forall metric :: metric != ProjectNamesKey && metric in ChartedMetrics(Stream(projectData)) ==>
           Get(psd, metric) ==
             Some(Series(if metric == CvssVersionKey then [] else ValuesOf(Stream(projectData), metric)))
  {
    var pairs := Stream(projectData);
    var sk := Skeleton(pairs);
    var cm := ChartedMetrics(pairs);
    SkeletonShape(pairs);
    PutAllFromEmpty(sk);
    var d := PutAll([], sk);
    assert Keys(d) == Dedup(cm);
    assert forall m :: Get(d, m) == if m in cm then Some(Series([])) else None;
    ChartedMetricsMembers(pairs);
    AppendAllShape(d, pairs);
    var e := AppendAll(d, pairs);
    forall m | m in cm
      ensures Get(e, m) == Some(Series(if m == CvssVersionKey then [] else ValuesOf(pairs, m)))
    {
      assert Get(d, m) == Some(Series([]));
      if m != CvssVersionKey {
        assert [] + ValuesOf(pairs, m) == ValuesOf(pairs, m);
      }
    }
    var names := Names(Keys(projectData));
    PutKeys(e, ProjectNamesKey, names);
    PutDistinct(e, ProjectNamesKey, names);
    forall m ensures Get(Put(e, ProjectNamesKey, names), m) == if m == ProjectNamesKey then Some(names) else Get(e, m) {
      PutGet(e, ProjectNamesKey, names, m);
    }
  }

  lemma {:induction false} ValuesOfAppend(a: seq<(string, Value)>, b: seq<(string, Value)>, metric: string)
    ensures ValuesOf(a + b, metric) == ValuesOf(a, metric) + ValuesOf(b, metric)
    decreases |b|
  {
    if b == [] {
      assert a + b == a;
    } else {
      ValuesOfAppend(a, b[..|b| - 1], metric);
      assert (a + b)[..|a + b| - 1] == a + b[..|b| - 1];
    }
  }

  lemma {:induction false} ValuesOfAbsent(record: ProjectRecord, metric: string)
    requires metric !in Keys(record)
    ensures ValuesOf(record, metric) == []
  {
    if record != [] {
      assert Keys(record) == Keys(record[..|record| - 1]) + [record[|record| - 1].0];
      ValuesOfAbsent(record[..|record| - 1], metric);
    }
  }

  /** A record holds each of its metrics once. */
  lemma {:induction false} ValuesOfRecord(record: ProjectRecord, metric: string)
    requires DistinctKeys(record)
    requires metric in Keys(record)
    ensures ValuesOf(record, metric) == [Get(record, metric).value]
  {
    var init := record[..|record| - 1];
    var last := record[|record| - 1];
    LastKeyFresh(record);
    GetSnoc(init, last);
    if last.0 == metric {
      ValuesOfAbsent(init, metric);
    } else {
      ValuesOfRecord(init, metric);
    }
  }

  /** The chart series line up with the projects: when every project's
      record has the metric, its series holds one value per project and the
      i-th is the i-th project's. */
  lemma {:induction false} SeriesAligned(projectData: ProjectData, metric: string)
    requires forall i :: 0 <= i < |projectData| ==>
      DistinctKeys(projectData[i].1) && metric in Keys(projectData[i].1)
    ensures |ValuesOf(Stream(projectData), metric)| == |projectData|
    ensures forall i :: 0 <= i < |projectData| ==>
      ValuesOf(Stream(projectData), metric)[i] == Get(projectData[i].1, metric).value
  {
    if projectData != [] {
      var init := projectData[..|projectData| - 1];
      var record := projectData[|projectData| - 1].1;
      SeriesAligned(init, metric);
      assert Stream(projectData) == Stream(init) + record;
      ValuesOfAppend(Stream(init), record, metric);
      ValuesOfRecord(record, metric);
      var values := ValuesOf(Stream(projectData), metric);
      assert values == ValuesOf(Stream(init), metric) + [Get(record, metric).value];
      forall i | 0 <= i < |projectData|
        ensures values[i] == Get(projectData[i].1, metric).value
      {
        if i < |init| {
          assert projectData[i] == init[i];
        }
      }
    }
  }

  // ---------------------------------------------------------------------

  /** sum() of a list of values: None where Python raises TypeError (a
      text element). */
  function SeriesTotal(values: seq<Value>): Option<int>
  {
    if values == [] then Some(0)
    else
      match (SeriesTotal(values[..|values| - 1]), values[|values| - 1])
      case (Some(t), Int(n)) => Some(t + n)
      case _ => None
  }

  /** sum() of a column; a list of names or a text sums only when empty. */
  function ColumnTotal(column: Column): Option<int>
  {
    match column
    case Series(values) => SeriesTotal(values)
    case Names(names) => if names == [] then Some(0) else None
    case Version(version) => if version == "" then Some(0) else None
  }

  /** The application-level value of one metric: cvssVersion copied,
      projectNames dropped, anything else totalled. */
  function ApplicationValue(metric: string, column: Column): Option<Summary>
  {
    if metric == CvssVersionKey then Some(Copied(column))
    else if metric == ProjectNamesKey then None
    else match ColumnTotal(column)
      case Some(t) => Some(Total(t))
      case None => None
  }

  /** The assignments the loop makes for the entries of d, in order. */
  function ApplicationEntries(d: Dict<string, Column>): Dict<string, Summary>
  {
    if d == [] then []
    else
      var out := ApplicationEntries(d[..|d| - 1]);
      var (metric, column) := d[|d| - 1];
      match ApplicationValue(metric, column)
      case Some(v) => Put(out, metric, v)
      case None => out
  }

  /** A metric the application summary must total. */
  predicate Totalled(metric: string)
  {
    metric != CvssVersionKey && metric != ProjectNamesKey
  }

  /** The keys of d other than projectNames, in order. */
  function KeysWithoutNames(ks: seq<string>): seq<string>
  {
    if ks == [] then []
    else
      var r := KeysWithoutNames(ks[..|ks| - 1]);
      if ks[|ks| - 1] == ProjectNamesKey then r else r + [ks[|ks| - 1]]
  }

  lemma ApplicationStep(d: Dict<string, Column>, i: nat, before: Dict<string, Summary>, after: Dict<string, Summary>)
    requires i < |d|
    requires before == ApplicationEntries(d[..i])
    requires after == match ApplicationValue(d[i].0, d[i].1) case Some(v) => Put(before, d[i].0, v) case None => before
    ensures after == ApplicationEntries(d[..i + 1])
  {
    assert d[..i + 1][..i] == d[..i];
  }

  /** create_application_summary_data_dict: None where summing some
      metric's column raises TypeError; otherwise every metric but
      projectNames, in order, cvssVersion copied and each other metric its
      column's total. */
  method CreateApplicationSummaryData(projectSummaryData: Dict<string, Column>)
    returns (r: Option<Dict<string, Summary>>)
    requires DistinctKeys(projectSummaryData)
    ensures r.Some? <==> forall i :: 0 <= i < |projectSummaryData| && Totalled(projectSummaryData[i].0) ==>
      ColumnTotal(projectSummaryData[i].1).Some?
    ensures r.Some? ==> DistinctKeys(r.value) && Keys(r.value) == KeysWithoutNames(Keys(projectSummaryData))
    ensures r.Some? ==> forall i :: 0 <= i < |projectSummaryData| ==>
      Get(r.value, projectSummaryData[i].0) == ApplicationValue(projectSummaryData[i].0, projectSummaryData[i].1)
  {
    var applicationSummaryData: Dict<string, Summary> := [];
    for i := 0 to |projectSummaryData|
      invariant applicationSummaryData == ApplicationEntries(projectSummaryData[..i])
      invariant forall k :: 0 <= k < i && Totalled(projectSummaryData[k].0) ==> ColumnTotal(projectSummaryData[k].1).Some?
    {
      ghost var before := applicationSummaryData;
      var (metric, column) := projectSummaryData[i];
      if metric == CvssVersionKey {
        applicationSummaryData := Put(applicationSummaryData, metric, Copied(column));
      } else if metric != ProjectNamesKey {
        var total := ColumnTotal(column);
        if total.None? {
          return None;
        }
        applicationSummaryData := Put(applicationSummaryData, metric, Total(total.value));
      }
      ApplicationStep(projectSummaryData, i, before, applicationSummaryData);
    }
    assert projectSummaryData[..|projectSummaryData|] == projectSummaryData;
    ApplicationEntriesMeaning(projectSummaryData);
    r := Some(applicationSummaryData);
  }

  /** The application summary of a dict whose every column sums: one entry
      per key but projectNames, in order, each the key's value. */
  lemma {:induction false} ApplicationEntriesMeaning(d: Dict<string, Column>)
    requires DistinctKeys(d)
    requires forall i :: 0 <= i < |d| && Totalled(d[i].0) ==> ColumnTotal(d[i].1).Some?
    ensures DistinctKeys(ApplicationEntries(d))
    ensures Keys(ApplicationEntries(d)) == KeysWithoutNames(Keys(d))
    ensures forall i :: 0 <= i < |d| ==> Get(ApplicationEntries(d), d[i].0) == ApplicationValue(d[i].0, d[i].1)
  {
    if d != [] {
      var init := d[..|d| - 1];
      var (metric, column) := d[|d| - 1];
      LastKeyFresh(d);
      assert forall i :: 0 <= i < |init| ==> init[i] == d[i];
      ApplicationEntriesMeaning(init);
      var out := ApplicationEntries(init);
      assert Keys(init)[..|init|] == Keys(init);
      KeysWithoutNamesMembers(Keys(init));
      assert metric !in Keys(out);
      if metric != ProjectNamesKey {
        var v := ApplicationValue(metric, column).value;
        PutKeys(out, metric, v);
        PutDistinct(out, metric, v);
        forall i | 0 <= i < |d| ensures Get(ApplicationEntries(d), d[i].0) == ApplicationValue(d[i].0, d[i].1) {
          PutGet(out, metric, v, d[i].0);
        }
      } else {
        forall i | 0 <= i < |d| ensures Get(ApplicationEntries(d), d[i].0) == ApplicationValue(d[i].0, d[i].1) {
          if i == |d| - 1 {
            assert Get(out, metric).None?;
          }
        }
      }
    }
  }

  lemma {:induction false} KeysWithoutNamesMembers(ks: seq<string>)
    ensures forall k :: k in KeysWithoutNames(ks) <==> k in ks && k != ProjectNamesKey
  {
    if ks != [] {
      KeysWithoutNamesMembers(ks[..|ks| - 1]);
      assert ks == ks[..|ks| - 1] + [ks[|ks| - 1]];
    }
  }

  /** The sum over the projects of one metric's values. */
  function ProjectsTotal(projectData: ProjectData, metric: string): int
    requires forall i :: 0 <= i < |projectData| ==> Get(projectData[i].1, metric).Some?
  {
    if projectData == [] then 0
    else
      ProjectsTotal(projectData[..|projectData| - 1], metric) +
      match Get(projectData[|projectData| - 1].1, metric).value
      case Int(n) => n
      case Str(_) => 0
  }

  /** The application total of a count every project reports is the sum of
      the projects' counts. */
  lemma {:induction false} ApplicationTotalIsSumOfProjects(projectData: ProjectData, metric: string)
    requires forall i :: 0 <= i < |projectData| ==>
      DistinctKeys(projectData[i].1) && Get(projectData[i].1, metric).Some? && Get(projectData[i].1, metric).value.Int?
    ensures SeriesTotal(ValuesOf(Stream(projectData), metric)) == Some(ProjectsTotal(projectData, metric))
  {
    if projectData != [] {
      var init := projectData[..|projectData| - 1];
      var record := projectData[|projectData| - 1].1;
      ApplicationTotalIsSumOfProjects(init, metric);
      ValuesOfAppend(Stream(init), record, metric);
      ValuesOfRecord(record, metric);
      var vs := ValuesOf(Stream(projectData), metric);
      assert vs[..|vs| - 1] == ValuesOf(Stream(init), metric);
    }
  }
}
