/**
 * Per-item vulnerability counts (report_data.py, create_inventory_summary_dict
 * and the all-zero fallback of gather_data_for_report).
 */
module VulnerabilitySummary {

  import opened Wrappers
  import opened OrderedDicts

  /** The per-item dictionary the report stores. The total and the High,
      Medium and Low buckets are always there; numCriticalVulnerabilities
      and numNoneVulnerabilities are keys that may be absent (None). */
  datatype InventorySummary = InventorySummary(
    numTotalVulnerabilities: int,
    numCriticalVulnerabilities: Option<int>,
    numHighVulnerabilities: int,
    numMediumVulnerabilities: int,
    numLowVulnerabilities: int,
    numNoneVulnerabilities: Option<int>)

  /** sum(vulnerabilities.values()) */
  function SumValues(d: Dict<string, int>): int
  {
    if d == [] then 0 else SumValues(d[..|d| - 1]) + d[|d| - 1].1
  }

  /** The severity keys the server's count dictionary must hold for
      cvssVersion; reading any other one raises KeyError. */
  function RequiredSeverities(cvssVersion: string): seq<string>
  {
    if cvssVersion == "2.0" then ["High", "Medium", "Low", "Unknown"]
    else if cvssVersion == "3.x" then ["High", "Medium", "Low", "Critical", "None"]
    else ["High", "Medium", "Low"]
  }

  /** create_inventory_summary_dict: the item's counts per severity bucket
      and their total, or None where reading a severity raises KeyError. */
  function CreateInventorySummaryDict(vulnerabilities: Dict<string, int>, cvssVersion: string): (r: Option<InventorySummary>)
    ensures r.Some? <==> forall s :: s in RequiredSeverities(cvssVersion) ==> s in Keys(vulnerabilities)
  {
    var high := Get(vulnerabilities, "High");
    var medium := Get(vulnerabilities, "Medium");
    var low := Get(vulnerabilities, "Low");
    if high.None? || medium.None? || low.None? then None
    else
      var common := InventorySummary(SumValues(vulnerabilities), None, high.value, medium.value, low.value, None);
      if cvssVersion == "2.0" then
        match Get(vulnerabilities, "Unknown")
        case None => None
        case Some(unknown) => Some(common.(numNoneVulnerabilities := Some(unknown)))
      else if cvssVersion == "3.x" then
        match Get(vulnerabilities, "Critical")
        case None => None
        case Some(critical) =>
          match Get(vulnerabilities, "None")
          case None => None
          case Some(none) => Some(common.(numCriticalVulnerabilities := Some(critical), numNoneVulnerabilities := Some(none)))
      else Some(common)
  }

  /** What the report stores when the item's counts cannot be read: every
      bucket zero, a Critical count included whatever the CVSS version. */
  const NoVulnerabilities: InventorySummary := InventorySummary(0, Some(0), 0, 0, 0, Some(0))

  /** vulnerabilitySummary[0]["CvssV3"] (or ["CvssV2"]) passed to
      create_inventory_summary_dict; any failure on the way gives the
      all-zero record. */
  function ItemVulnerabilityData(vulnerabilitySummary: seq<Dict<string, Dict<string, int>>>, cvssVersion: string): InventorySummary
  {
    var key := if cvssVersion == "3.x" then "CvssV3" else "CvssV2";
    if |vulnerabilitySummary| == 0 then NoVulnerabilities
    else
      match Get(vulnerabilitySummary[0], key)
      case None => NoVulnerabilities
      case Some(counts) =>
        match CreateInventorySummaryDict(counts, cvssVersion)
        case None => NoVulnerabilities
        case Some(data) => data
  }

  // ---------------------------------------------------------------------

  /** The buckets each CVSS version produces: the total of every count the
      server sent; High, Medium and Low as sent; under 2.0 a None bucket
      holding the server's Unknown count, under 3.x the Critical and None
      buckets; under any other version neither. */
  lemma SummaryBuckets(vulnerabilities: Dict<string, int>, cvssVersion: string)
    requires forall s :: s in RequiredSeverities(cvssVersion) ==> s in Keys(vulnerabilities)
    ensures var r := CreateInventorySummaryDict(vulnerabilities, cvssVersion).value;
      && r.numTotalVulnerabilities == SumValues(vulnerabilities)
      && Some(r.numHighVulnerabilities) == Get(vulnerabilities, "High")
      && Some(r.numMediumVulnerabilities) == Get(vulnerabilities, "Medium")
      && Some(r.numLowVulnerabilities) == Get(vulnerabilities, "Low")
      && (r.numCriticalVulnerabilities.Some? <==> cvssVersion == "3.x")
      && (r.numNoneVulnerabilities.Some? <==> cvssVersion == "2.0" || cvssVersion == "3.x")
      && (cvssVersion == "2.0" ==> r.numNoneVulnerabilities == Get(vulnerabilities, "Unknown"))
      && (cvssVersion == "3.x" ==> r.numCriticalVulnerabilities == Get(vulnerabilities, "Critical")
                                   && r.numNoneVulnerabilities == Get(vulnerabilities, "None"))
  {
    assert "High" in RequiredSeverities(cvssVersion);
    assert "Medium" in RequiredSeverities(cvssVersion);
    assert "Low" in RequiredSeverities(cvssVersion);
    if cvssVersion == "2.0" {
      assert "Unknown" in RequiredSeverities(cvssVersion);
    } else if cvssVersion == "3.x" {
      assert "Critical" in RequiredSeverities(cvssVersion);
      assert "None" in RequiredSeverities(cvssVersion);
    }
  }

  /** The dictionary without key k. */
  function Without(d: Dict<string, int>, k: string): Dict<string, int>
  {
    if d == [] then []
    else if d[|d| - 1].0 == k then Without(d[..|d| - 1], k)
    else Without(d[..|d| - 1], k) + [d[|d| - 1]]
  }

  lemma {:induction false} WithoutKeys(d: Dict<string, int>, k: string)
    requires DistinctKeys(d)
    ensures DistinctKeys(Without(d, k))
    ensures forall x :: x in Keys(Without(d, k)) <==> x in Keys(d) && x != k
    ensures forall x :: x != k ==> Get(Without(d, k), x) == Get(d, x)
  {
    if d != [] {
      var init := d[..|d| - 1];
      var last := d[|d| - 1];
      LastKeyFresh(d);
      WithoutKeys(init, k);
      GetSnoc(init, last);
      if last.0 != k {
        var w := Without(init, k);
        assert last.0 !in Keys(w);
        assert Keys(w + [last]) == Keys(w) + [last.0];
        GetSnoc(w, last);
        forall i, j | 0 <= i < j < |w + [last]| ensures (w + [last])[i].0 != (w + [last])[j].0 {
          if j == |w| {
            assert Keys(w)[i] == w[i].0;
          }
        }
      }
    }
  }

  lemma {:induction false} WithoutNoKey(d: Dict<string, int>, k: string)
    requires k !in Keys(d)
    ensures Without(d, k) == d
  {
    if d != [] {
      assert Keys(d) == Keys(d[..|d| - 1]) + [d[|d| - 1].0];
      WithoutNoKey(d[..|d| - 1], k);
    }
  }

  /** The total counts every entry once: taking one key out takes out its
      count. */
  lemma {:induction false} SumValuesWithout(d: Dict<string, int>, k: string)
    requires DistinctKeys(d)
    requires k in Keys(d)
    ensures SumValues(d) == Get(d, k).value + SumValues(Without(d, k))
  {
    var init := d[..|d| - 1];
    var last := d[|d| - 1];
    LastKeyFresh(d);
    GetSnoc(init, last);
    if last.0 == k {
      WithoutNoKey(init, k);
    } else {
      SumValuesWithout(init, k);
    }
  }

  lemma FirstKeyListed(d: Dict<string, int>)
    ensures |d| > 0 ==> d[0].0 in Keys(d)
  {
    assert |d| > 0 ==> Keys(d)[0] == d[0].0;
  }

  /** d[k] for each k of ks, added up. */
  function SumAt(d: Dict<string, int>, ks: seq<string>): int
  {
    if ks == [] then 0
    else (match Get(d, ks[0]) case Some(v) => v case None => 0) + SumAt(d, ks[1..])
  }

  lemma {:induction false} SumAtAgree(d: Dict<string, int>, e: Dict<string, int>, ks: seq<string>)
    requires forall x :: x in ks ==> Get(d, x) == Get(e, x)
    ensures SumAt(d, ks) == SumAt(e, ks)
  {
    if ks != [] {
      SumAtAgree(d, e, ks[1..]);
    }
  }

  /** Adding up every value of a dictionary is adding up d[k] over its keys
      in any order. */
  lemma {:induction false} SumValuesOverKeys(d: Dict<string, int>, ks: seq<string>)
    requires DistinctKeys(d) && Distinct(ks)
    requires forall x :: x in Keys(d) <==> x in ks
    ensures SumValues(d) == SumAt(d, ks)
    decreases |ks|
  {
    if ks == [] {
      FirstKeyListed(d);
    } else {
      var k := ks[0];
      var rest := ks[1..];
      assert ks == [k] + rest;
      assert k in Keys(d);
      SumValuesWithout(d, k);
      WithoutKeys(d, k);
      var w := Without(d, k);
      assert Distinct(rest) by {
        forall i, j | 0 <= i < j < |rest| ensures rest[i] != rest[j] {
          assert rest[i] == ks[i + 1] && rest[j] == ks[j + 1];
        }
      }
      assert k !in rest by {
        forall i | 0 <= i < |rest| ensures rest[i] != k {
          assert rest[i] == ks[i + 1];
        }
      }
      assert forall x :: x in Keys(w) <==> x in rest;
      SumValuesOverKeys(w, rest);
      assert forall x :: x in rest ==> Get(w, x) == Get(d, x);
      SumAtAgree(w, d, rest);
      assert SumAt(d, ks) == Get(d, k).value + SumAt(d, rest);
    }
  }

  /** When the server reports exactly the five CVSS v3 buckets, the stored
      total is the sum of the five stored buckets. */
  lemma TotalIsSumOfBucketsV3(vulnerabilities: Dict<string, int>)
    requires DistinctKeys(vulnerabilities)
    requires forall x :: x in Keys(vulnerabilities) <==> x in ["Critical", "High", "Medium", "Low", "None"]
    ensures var r := CreateInventorySummaryDict(vulnerabilities, "3.x");
      && r.Some? && r.value.numCriticalVulnerabilities.Some? && r.value.numNoneVulnerabilities.Some?
      && r.value.numTotalVulnerabilities
         == r.value.numCriticalVulnerabilities.value + r.value.numHighVulnerabilities
            + r.value.numMediumVulnerabilities + r.value.numLowVulnerabilities
            + r.value.numNoneVulnerabilities.value
  {
    SummaryBuckets(vulnerabilities, "3.x");
    var ks := ["Critical", "High", "Medium", "Low", "None"];
    SumValuesOverKeys(vulnerabilities, ks);
    assert ks[1..] == ["High", "Medium", "Low", "None"];
    assert ks[2..] == ["Medium", "Low", "None"];
    assert ks[3..] == ["Low", "None"];
    assert ks[4..] == ["None"];
    var v := vulnerabilities;
    assert SumAt(v, ks[4..]) == Get(v, "None").value;
    assert SumAt(v, ks[3..]) == Get(v, "Low").value + SumAt(v, ks[4..]);
    assert SumAt(v, ks[2..]) == Get(v, "Medium").value + SumAt(v, ks[3..]);
    assert SumAt(v, ks[1..]) == Get(v, "High").value + SumAt(v, ks[2..]);
    assert SumAt(v, ks) == Get(v, "Critical").value + SumAt(v, ks[1..]);
  }

  /** Under CVSS v2 with exactly the four v2 buckets, the total is the sum of
      the stored High, Medium, Low and None (the server's Unknown) counts. */
  lemma TotalIsSumOfBucketsV2(vulnerabilities: Dict<string, int>)
    requires DistinctKeys(vulnerabilities)
    requires forall x :: x in Keys(vulnerabilities) <==> x in ["High", "Medium", "Low", "Unknown"]
    ensures var r := CreateInventorySummaryDict(vulnerabilities, "2.0");
      && r.Some? && r.value.numNoneVulnerabilities.Some?
      && r.value.numTotalVulnerabilities
         == r.value.numHighVulnerabilities + r.value.numMediumVulnerabilities
            + r.value.numLowVulnerabilities + r.value.numNoneVulnerabilities.value
  {
    SummaryBuckets(vulnerabilities, "2.0");
    var ks := ["High", "Medium", "Low", "Unknown"];
    SumValuesOverKeys(vulnerabilities, ks);
    assert ks[1..] == ["Medium", "Low", "Unknown"];
    assert ks[2..] == ["Low", "Unknown"];
    assert ks[3..] == ["Unknown"];
    var v := vulnerabilities;
    assert SumAt(v, ks[3..]) == Get(v, "Unknown").value;
    assert SumAt(v, ks[2..]) == Get(v, "Low").value + SumAt(v, ks[3..]);
    assert SumAt(v, ks[1..]) == Get(v, "Medium").value + SumAt(v, ks[2..]);
    assert SumAt(v, ks) == Get(v, "High").value + SumAt(v, ks[1..]);
  }

  /** The vulnerability data stored for an item. When its first summary
      entry holds the version's counts (CvssV3 under 3.x, CvssV2 otherwise)
      with every severity the version reads, it is their summary: the total
      of all counts, and High, Medium, Low, Critical and None as
      SummaryBuckets gives them. In every other case (no entry, no counts
      for the version, a severity missing) it is the all-zero fallback. */
  lemma ItemVulnerabilityDataCases(vulnerabilitySummary: seq<Dict<string, Dict<string, int>>>, cvssVersion: string)
    ensures var r := ItemVulnerabilityData(vulnerabilitySummary, cvssVersion);
      var key := if cvssVersion == "3.x" then "CvssV3" else "CvssV2";
      if |vulnerabilitySummary| > 0 && Get(vulnerabilitySummary[0], key).Some?
         && (forall s :: s in RequiredSeverities(cvssVersion) ==> s in Keys(Get(vulnerabilitySummary[0], key).value))
      then
        var counts := Get(vulnerabilitySummary[0], key).value;
        && Some(r) == CreateInventorySummaryDict(counts, cvssVersion)
        && r.numTotalVulnerabilities == SumValues(counts)
        && Some(r.numHighVulnerabilities) == Get(counts, "High")
        && Some(r.numMediumVulnerabilities) == Get(counts, "Medium")
        && Some(r.numLowVulnerabilities) == Get(counts, "Low")
        && (r.numCriticalVulnerabilities.Some? <==> cvssVersion == "3.x")
        && (cvssVersion == "3.x" ==> r.numCriticalVulnerabilities == Get(counts, "Critical")
                                     && r.numNoneVulnerabilities == Get(counts, "None"))
        && (cvssVersion == "2.0" ==> r.numNoneVulnerabilities == Get(counts, "Unknown"))
      else r == NoVulnerabilities
  {
    var key := if cvssVersion == "3.x" then "CvssV3" else "CvssV2";
    if |vulnerabilitySummary| > 0 && Get(vulnerabilitySummary[0], key).Some? {
      var counts := Get(vulnerabilitySummary[0], key).value;
      if forall s :: s in RequiredSeverities(cvssVersion) ==> s in Keys(counts) {
        SummaryBuckets(counts, cvssVersion);
      }
    }
  }
}
