/**
 * gather_data_for_report (report_data.py): the walk over the project list
 * that fetches each project's information and inventory, builds the
 * inventory records and the per-project metric records, and rolls them up
 * into the chart data and the application totals.
 */
module ReportData {

  import opened Wrappers
  import opened OrderedDicts
  import opened ProjectHierarchy
  import opened Inventory
  import opened SummaryData
  import opened Links

  /** get_project_information_summary's answer: license counts by priority
      and vulnerability counts under "CvssV2" and "CvssV3". */
  datatype ProjectInformation = ProjectInformation(
    licenses: Dict<string, int>,
    vulnerabilities: Dict<string, Dict<string, int>>)

  /** The server's answers. projectInformation gives None where the call
      raises; projectInventory's flag selects the CVSS v3 endpoint. */
  datatype Server = Server(
    projectInformation: int -> Option<ProjectInformation>,
    projectInventory: (int, bool) -> seq<InventoryItem>,
    licenseDetails: string -> LicenseInformation)

  /** reportData */
  datatype Report = Report(
    reportName: string,
    projectName: string,
    projectID: int,
    inventoryData: Dict<int, InventoryRecord>,
    projectList: seq<ProjectDescriptor>,
    projectSummaryData: Dict<string, Column>,
    applicationSummaryData: Dict<string, Summary>,
    projectInventoryCount: Dict<string, int>)

  /** Record key and the license-count key it is read from. */
  const LicenseFields: seq<(string, string)> :=
    [("numP1Licenses", "P1"), ("numP2Licenses", "P2"), ("numP3Licenses", "P3"), ("numNALicenses", "Unknown")]

  /** Record key and the severity key it is read from, per CVSS version. */
  function SeverityFields(cvssVersion: string): seq<(string, string)>
  {
    if cvssVersion == "3.x" then
      [("numCriticalVulnerabilities", "Critical"), ("numHighVulnerabilities", "High"),
       ("numMediumVulnerabilities", "Medium"), ("numLowVulnerabilities", "Low"),
       ("numNoneVulnerabilities", "None")]
    else
      [("numHighVulnerabilities", "High"), ("numMediumVulnerabilities", "Medium"),
       ("numLowVulnerabilities", "Low"), ("numNoneVulnerabilities", "Unknown")]
  }

  function SeverityKey(cvssVersion: string): string
  {
    if cvssVersion == "3.x" then "CvssV3" else "CvssV2"
  }

  /** record[field] = counts[key] for each (field, key); None on KeyError. */
  function ReadFields(counts: Dict<string, int>, fields: seq<(string, string)>): Option<ProjectRecord>
  {
    if fields == [] then Some([])
    else
      match (Get(counts, fields[0].1), ReadFields(counts, fields[1..]))
      case (Some(n), Some(rest)) => Some([(fields[0].0, Int(n))] + rest)
      case _ => None
  }

  /** projectData[projectName]: the review tally, the license counts, the
      severity counts of the chosen CVSS version and the project link, in
      that order; None where a count is missing (KeyError). */
  function ProjectRecordFor(tally: ReviewTally, info: ProjectInformation, cvssVersion: string,
                            projectLink: string): Option<ProjectRecord>
  {
    match (ReadFields(info.licenses, LicenseFields), Get(info.vulnerabilities, SeverityKey(cvssVersion)))
    case (Some(licenses), Some(severityCounts)) =>
      (match ReadFields(severityCounts, SeverityFields(cvssVersion))
       case Some(severities) =>
         Some([("numApproved", Int(tally.numApproved)), ("numRejected", Int(tally.numRejected)),
               ("numDraft", Int(tally.numDraft))]
              + licenses + severities + [("projectLink", Str(projectLink))])
       case None => None)
    case _ => None
  }

  /** The keys of a project record, in order. */
  function RecordKeys(cvssVersion: string): seq<string>
  {
    TallyKeys + Keys(LicenseFields) + Keys(SeverityFields(cvssVersion)) + ["projectLink"]
  }

  const TallyKeys: seq<string> := ["numApproved", "numRejected", "numDraft"]

  /** Every value of a record but its projectLink is a count. */
  predicate CountsOnly(record: ProjectRecord)
  {
    forall j :: 0 <= j < |record| && record[j].0 != "projectLink" ==> record[j].1.Int?
  }

  /** The inventory the report fetches for a project. */
  function ItemsOf(server: Server, project: ProjectDescriptor, cvssVersion: string): seq<InventoryItem>
  {
    server.projectInventory(project.projectID, cvssVersion == "3.x")
  }

  /** The projectData entry of one project, from its own information and
      inventory; None where its information or one of its counts is missing. */
  function ProjectEntry(server: Server, baseURL: string, project: ProjectDescriptor, cvssVersion: string)
    : Option<(string, ProjectRecord)>
  {
    match server.projectInformation(project.projectID)
    case None => None
    case Some(info) =>
      match ProjectRecordFor(Tally(ItemsOf(server, project, cvssVersion)), info, cvssVersion,
                             ProjectLink(baseURL, project.projectID))
      case None => None
      case Some(record) => Some((project.projectName, record))
  }

  /** The projectData assignments for the list, in order. */
  function ProjectEntries(server: Server, baseURL: string, list: seq<ProjectDescriptor>, cvssVersion: string)
    : Option<seq<(string, ProjectRecord)>>
  {
    if list == [] then Some([])
    else
      match (ProjectEntries(server, baseURL, list[..|list| - 1], cvssVersion),
             ProjectEntry(server, baseURL, list[|list| - 1], cvssVersion))
      case (Some(entries), Some(entry)) => Some(entries + [entry])
      case _ => None
  }

  /** Every inventory item of the list's projects, in order. */
  function AllItems(server: Server, list: seq<ProjectDescriptor>, cvssVersion: string): seq<InventoryItem>
  {
    if list == [] then []
    else AllItems(server, list[..|list| - 1], cvssVersion) + ItemsOf(server, list[|list| - 1], cvssVersion)
  }

  /** The inventoryData assignments for the list, in order. */
  function AllRecords(server: Server, baseURL: string, list: seq<ProjectDescriptor>, cvssVersion: string)
    : seq<(int, InventoryRecord)>
  {
    if list == [] then []
    else
      var project := list[|list| - 1];
      AllRecords(server, baseURL, list[..|list| - 1], cvssVersion)
      + Records(baseURL, project.projectID, project.projectName, ItemsOf(server, project, cvssVersion),
                cvssVersion, server.licenseDetails)
  }

  /** The projectInventoryCount assignments for the list, in order. */
  function InventoryCounts(server: Server, list: seq<ProjectDescriptor>, cvssVersion: string): seq<(string, int)>
  {
    if list == [] then []
    else
      var project := list[|list| - 1];
      InventoryCounts(server, list[..|list| - 1], cvssVersion)
      + [(project.projectName, |ItemsOf(server, project, cvssVersion)|)]
  }

  /** The project list the report walks. */
  function ProjectListOf(projectHierarchy: ProjectNode, includeChildProjects: string): seq<ProjectDescriptor>
  {
    [RootEntry(projectHierarchy)] + (if includeChildProjects == "true" then Descendants(projectHierarchy) else [])
  }

  // ---------------------------------------------------------------------
  // Steps of the walk.

  lemma EntriesStep(server: Server, baseURL: string, list: seq<ProjectDescriptor>, k: nat, cvssVersion: string,
                    before: ProjectData, name: string, record: ProjectRecord)
    requires k < |list|
    requires ProjectEntries(server, baseURL, list[..k], cvssVersion).Some?
    requires before == PutAll([], ProjectEntries(server, baseURL, list[..k], cvssVersion).value)
    requires ProjectEntry(server, baseURL, list[k], cvssVersion) == Some((name, record))
    ensures ProjectEntries(server, baseURL, list[..k + 1], cvssVersion).Some?
    ensures Put(before, name, record) == PutAll([], ProjectEntries(server, baseURL, list[..k + 1], cvssVersion).value)
  {
    assert list[..k + 1][..k] == list[..k];
    var es := ProjectEntries(server, baseURL, list[..k], cvssVersion).value;
    assert (es + [(name, record)])[..|es|] == es;
  }

  lemma EntriesStop(server: Server, baseURL: string, list: seq<ProjectDescriptor>, k: nat, cvssVersion: string)
    requires k < |list|
    requires ProjectEntry(server, baseURL, list[k], cvssVersion).None?
    ensures ProjectEntries(server, baseURL, list, cvssVersion).None?
  {
    EntriesPrefixNone(server, baseURL, list, k + 1, cvssVersion);
  }

  lemma {:induction false} EntriesPrefixNone(server: Server, baseURL: string, list: seq<ProjectDescriptor>, n: nat,
                                             cvssVersion: string)
    requires 0 < n <= |list|
    requires ProjectEntry(server, baseURL, list[n - 1], cvssVersion).None?
    ensures ProjectEntries(server, baseURL, list[..n], cvssVersion).None?
    ensures ProjectEntries(server, baseURL, list, cvssVersion).None?
    decreases |list|
  {
    assert list[..n][..n - 1] == list[..n - 1];
    if n < |list| {
      var init := list[..|list| - 1];
      assert init[..n] == list[..n];
      assert init[n - 1] == list[n - 1];
      EntriesPrefixNone(server, baseURL, init, n, cvssVersion);
    } else {
      assert list[..n] == list;
    }
  }

  lemma InventoryStep(server: Server, baseURL: string, list: seq<ProjectDescriptor>, k: nat, cvssVersion: string,
                      recordsBefore: Dict<int, InventoryRecord>, recordsAfter: Dict<int, InventoryRecord>,
                      countsBefore: Dict<string, int>, countsAfter: Dict<string, int>)
    requires k < |list|
    requires recordsBefore == PutAll([], AllRecords(server, baseURL, list[..k], cvssVersion))
    requires recordsAfter == PutAll(recordsBefore, Records(baseURL, list[k].projectID, list[k].projectName,
                                                           ItemsOf(server, list[k], cvssVersion), cvssVersion,
                                                           server.licenseDetails))
    requires countsBefore == PutAll([], InventoryCounts(server, list[..k], cvssVersion))
    requires countsAfter == Put(countsBefore, list[k].projectName, |ItemsOf(server, list[k], cvssVersion)|)
    ensures recordsAfter == PutAll([], AllRecords(server, baseURL, list[..k + 1], cvssVersion))
    ensures countsAfter == PutAll([], InventoryCounts(server, list[..k + 1], cvssVersion))
  {
    assert list[..k + 1][..k] == list[..k];
    PutAllAppend([], AllRecords(server, baseURL, list[..k], cvssVersion),
                 Records(baseURL, list[k].projectID, list[k].projectName, ItemsOf(server, list[k], cvssVersion),
                         cvssVersion, server.licenseDetails));
    var cs := InventoryCounts(server, list[..k + 1], cvssVersion);
    assert cs[..|cs| - 1] == InventoryCounts(server, list[..k], cvssVersion);
  }

  lemma LicenseIdsAppend(a: seq<InventoryItem>, b: seq<InventoryItem>)
    ensures LicenseIds(a + b) == LicenseIds(a) + LicenseIds(b)
  {
    var ab := a + b;
    forall x | x in LicenseIds(ab) ensures x in LicenseIds(a) + LicenseIds(b) {
      var j :| 0 <= j < |ab| && ab[j].selectedLicenseId != NoLicense && ab[j].selectedLicenseId == x;
      if j < |a| {
        assert ab[j] == a[j];
      } else {
        assert ab[j] == b[j - |a|];
      }
    }
    forall x | x in LicenseIds(a) ensures x in LicenseIds(ab) {
      var j :| 0 <= j < |a| && a[j].selectedLicenseId != NoLicense && a[j].selectedLicenseId == x;
      assert ab[j] == a[j];
    }
    forall x | x in LicenseIds(b) ensures x in LicenseIds(ab) {
      var j :| 0 <= j < |b| && b[j].selectedLicenseId != NoLicense && b[j].selectedLicenseId == x;
      assert ab[j + |a|] == b[j];
    }
  }

  lemma LookupsStep(allBefore: seq<InventoryItem>, items: seq<InventoryItem>,
                    cacheBefore: map<string, LicenseDetail>, cacheAfter: map<string, LicenseDetail>,
                    lookupsBefore: seq<string>, lookups: seq<string>)
    requires cacheBefore.Keys == LicenseIds(allBefore)
    requires Distinct(lookupsBefore)
    requires forall id :: id in lookupsBefore <==> id in LicenseIds(allBefore)
    requires cacheAfter.Keys == cacheBefore.Keys + LicenseIds(items)
    requires Distinct(lookups)
    requires forall id :: id in lookups <==> id in LicenseIds(items) && id !in cacheBefore
    ensures cacheAfter.Keys == LicenseIds(allBefore + items)
    ensures Distinct(lookupsBefore + lookups)
    ensures forall id :: id in lookupsBefore + lookups <==> id in LicenseIds(allBefore + items)
  {
    LicenseIdsAppend(allBefore, items);
    var all := lookupsBefore + lookups;
    forall i, j | 0 <= i < j < |all| ensures all[i] != all[j] {
      if j >= |lookupsBefore| && i < |lookupsBefore| {
        assert all[j] == lookups[j - |lookupsBefore|];
        assert all[i] in lookupsBefore;
      } else if i >= |lookupsBefore| {
        assert all[i] == lookups[i - |lookupsBefore|] && all[j] == lookups[j - |lookupsBefore|];
      }
    }
  }

  // ---------------------------------------------------------------------

  /** One pass of the walk of gather_data_for_report: the project's
      information, its inventory (ProcessInventory) and its record. entry is
      the project's projectData entry, None where the walk stops. */
  method GatherProject(server: Server, baseURL: string, project: ProjectDescriptor, cvssVersion: string,
                       licenseDetails: map<string, LicenseDetail>, inventoryData: Dict<int, InventoryRecord>)
    returns (entry: Option<(string, ProjectRecord)>, itemCount: nat,
             licenseDetailsOut: map<string, LicenseDetail>, inventoryDataOut: Dict<int, InventoryRecord>,
             lookups: seq<string>)
    requires CacheFaithful(licenseDetails, server.licenseDetails)
    ensures entry == ProjectEntry(server, baseURL, project, cvssVersion)
    ensures itemCount == |ItemsOf(server, project, cvssVersion)|
    ensures entry.Some? ==>
      var items := ItemsOf(server, project, cvssVersion);
      && inventoryDataOut == PutAll(inventoryData, Records(baseURL, project.projectID, project.projectName, items,
                                                           cvssVersion, server.licenseDetails))
      && CacheFaithful(licenseDetailsOut, server.licenseDetails)
      && licenseDetailsOut.Keys == licenseDetails.Keys + LicenseIds(items)
      && Distinct(lookups)
      && (forall id :: id in lookups <==> id in LicenseIds(items) && id !in licenseDetails)
  {
    var projectID := project.projectID;
    var projectName := project.projectName;
    var projectLink := ProjectLink(baseURL, projectID);
    var projectInformation := server.projectInformation(projectID);
    var projectInventorySummary := server.projectInventory(projectID, cvssVersion == "3.x");
    itemCount := |projectInventorySummary|;
    if projectInformation.None? {
      return None, itemCount, licenseDetails, inventoryData, [];
    }

    var tally;
    tally, licenseDetailsOut, inventoryDataOut, lookups :=
      ProcessInventory(baseURL, projectID, projectName, projectInventorySummary, cvssVersion,
                       server.licenseDetails, licenseDetails, inventoryData);

    var record := ProjectRecordFor(tally, projectInformation.value, cvssVersion, projectLink);
    if record.None? {
      return None, itemCount, licenseDetailsOut, inventoryDataOut, lookups;
    }
    entry := Some((projectName, record.value));
  }

  /** The state of the walk once the projects of prefix are done: the
      assignments of ProjectEntries, AllRecords and InventoryCounts are
      made, the cache holds every license of their items, and each of those
      licenses was looked up once. */
  ghost predicate Gathered(server: Server, baseURL: string, prefix: seq<ProjectDescriptor>, cvssVersion: string,
                           projectData: ProjectData, inventoryData: Dict<int, InventoryRecord>,
                           projectInventoryCount: Dict<string, int>, licenseDetails: map<string, LicenseDetail>,
                           licenseLookups: seq<string>)
  {
    && ProjectEntries(server, baseURL, prefix, cvssVersion).Some?
    && projectData == PutAll([], ProjectEntries(server, baseURL, prefix, cvssVersion).value)
    && inventoryData == PutAll([], AllRecords(server, baseURL, prefix, cvssVersion))
    && projectInventoryCount == PutAll([], InventoryCounts(server, prefix, cvssVersion))
    && CacheFaithful(licenseDetails, server.licenseDetails)
    && licenseDetails.Keys == LicenseIds(AllItems(server, prefix, cvssVersion))
    && Distinct(licenseLookups)
    && (forall id :: id in licenseLookups <==> id in LicenseIds(AllItems(server, prefix, cvssVersion)))
  }

  lemma CacheStep(server: Server, list: seq<ProjectDescriptor>, k: nat, cvssVersion: string,
                  cacheBefore: map<string, LicenseDetail>, cacheAfter: map<string, LicenseDetail>,
                  lookupsBefore: seq<string>, lookups: seq<string>)
    requires k < |list|
    requires cacheBefore.Keys == LicenseIds(AllItems(server, list[..k], cvssVersion))
    requires Distinct(lookupsBefore)
    requires forall id :: id in lookupsBefore <==> id in LicenseIds(AllItems(server, list[..k], cvssVersion))
    requires cacheAfter.Keys == cacheBefore.Keys + LicenseIds(ItemsOf(server, list[k], cvssVersion))
    requires Distinct(lookups)
    requires forall id :: id in lookups <==> id in LicenseIds(ItemsOf(server, list[k], cvssVersion)) &&
                                              id !in cacheBefore
    ensures cacheAfter.Keys == LicenseIds(AllItems(server, list[..k + 1], cvssVersion))
    ensures Distinct(lookupsBefore + lookups)
    ensures forall id :: id in lookupsBefore + lookups <==> id in LicenseIds(AllItems(server, list[..k + 1], cvssVersion))
  {
    assert list[..k + 1][..k] == list[..k];
    assert list[..k + 1][k] == list[k];
    var allBefore := AllItems(server, list[..k], cvssVersion);
    var items := ItemsOf(server, list[k], cvssVersion);
    assert AllItems(server, list[..k + 1], cvssVersion) == allBefore + items;
    LookupsStep(allBefore, items, cacheBefore, cacheAfter, lookupsBefore, lookups);
  }

  /** The walk of gather_data_for_report over the project list. It
      completes exactly when every project's information and counts are
      there, and then has made the assignments of ProjectEntries, AllRecords
      and InventoryCounts in list order, looking each license up once. */
  method GatherProjects(server: Server, baseURL: string, projectList: seq<ProjectDescriptor>, cvssVersion: string)
    returns (ok: bool, projectData: ProjectData, inventoryData: Dict<int, InventoryRecord>,
             projectInventoryCount: Dict<string, int>, licenseLookups: seq<string>)
    ensures ok <==> ProjectEntries(server, baseURL, projectList, cvssVersion).Some?
    ensures ok ==>
      && projectData == PutAll([], ProjectEntries(server, baseURL, projectList, cvssVersion).value)
      && inventoryData == PutAll([], AllRecords(server, baseURL, projectList, cvssVersion))
      && projectInventoryCount == PutAll([], InventoryCounts(server, projectList, cvssVersion))
      && Distinct(licenseLookups)
      && (forall id :: id in licenseLookups <==> id in LicenseIds(AllItems(server, projectList, cvssVersion)))
  {
    inventoryData := [];
    projectData := [];
    var licenseDetails: map<string, LicenseDetail> := map[];
    projectInventoryCount := [];
    licenseLookups := [];
    assert projectList[..0] == [];

    for k := 0 to |projectList|
      invariant Gathered(server, baseURL, projectList[..k], cvssVersion, projectData, inventoryData,
                         projectInventoryCount, licenseDetails, licenseLookups)
    {
      var project := projectList[k];
      ghost var cacheBefore, recordsBefore := licenseDetails, inventoryData;
      var entry, itemCount, lookups;
      entry, itemCount, licenseDetails, inventoryData, lookups :=
        GatherProject(server, baseURL, project, cvssVersion, licenseDetails, inventoryData);
      if entry.None? {
        EntriesStop(server, baseURL, projectList, k, cvssVersion);
        return false, projectData, inventoryData, projectInventoryCount, licenseLookups;
      }
      EntriesStep(server, baseURL, projectList, k, cvssVersion, projectData, entry.value.0, entry.value.1);
      InventoryStep(server, baseURL, projectList, k, cvssVersion, recordsBefore, inventoryData,
                    projectInventoryCount, Put(projectInventoryCount, project.projectName, itemCount));
      CacheStep(server, projectList, k, cvssVersion, cacheBefore, licenseDetails, licenseLookups, lookups);
      projectInventoryCount := Put(projectInventoryCount, project.projectName, itemCount);
      licenseLookups := licenseLookups + lookups;
      projectData := Put(projectData, entry.value.0, entry.value.1);
    }
    assert projectList[..|projectList|] == projectList;
    ok := true;
  }

  /** gather_data_for_report, with the REST calls as the server's answers.
      The report is built exactly when every project's information and
      counts are there. It then holds the project list, one inventory
      record per item and one item count per project (assigned in list
      order), the chart data of the projects' records with the CVSS version
      added, and the application totals of that chart data. Each license is
      looked up once over the whole report. */
  method GatherDataForReport(server: Server, baseURL: string, projectHierarchy: ProjectNode, reportName: string,
                             includeChildProjects: string, cvssVersion: string)
    returns (report: Option<Report>, licenseLookups: seq<string>)
    ensures var list := ProjectListOf(projectHierarchy, includeChildProjects);
      report.Some? <==> ProjectEntries(server, baseURL, list, cvssVersion).Some?
    ensures report.Some? ==>
      var list := ProjectListOf(projectHierarchy, includeChildProjects);
      var projectData := PutAll([], ProjectEntries(server, baseURL, list, cvssVersion).value);
      var psd := Put(ProjectSummaryData(projectData), CvssVersionKey, Version(cvssVersion));
      && report.value.reportName == reportName
      && report.value.projectName == projectHierarchy.name
      && report.value.projectID == projectHierarchy.id
      && report.value.projectList == list
      && report.value.inventoryData == PutAll([], AllRecords(server, baseURL, list, cvssVersion))
      && report.value.projectInventoryCount == PutAll([], InventoryCounts(server, list, cvssVersion))
      && report.value.projectSummaryData == psd
      && Keys(report.value.applicationSummaryData) == KeysWithoutNames(Keys(psd))
      && (forall i :: 0 <= i < |psd| ==>
            Get(report.value.applicationSummaryData, psd[i].0) == ApplicationValue(psd[i].0, psd[i].1))
      && Distinct(licenseLookups)
      && (forall id :: id in licenseLookups <==> id in LicenseIds(AllItems(server, list, cvssVersion)))
  {
    var projectList := BuildProjectList(projectHierarchy, includeChildProjects);
    var ok, projectData, inventoryData, projectInventoryCount;
    ok, projectData, inventoryData, projectInventoryCount, licenseLookups :=
      GatherProjects(server, baseURL, projectList, cvssVersion);
    if !ok {
      return None, licenseLookups;
    }

    var projectSummaryData := CreateProjectSummaryData(projectData);
    projectSummaryData := Put(projectSummaryData, CvssVersionKey, Version(cvssVersion));
    PutDistinct(ProjectSummaryData(projectData), CvssVersionKey, Version(cvssVersion));
    AllColumnsTotal(server, baseURL, projectList, cvssVersion, projectSummaryData);
    var applicationSummaryData := CreateApplicationSummaryData(projectSummaryData);

    report := Some(Report(reportName, projectHierarchy.name, projectHierarchy.id, inventoryData, projectList,
                          projectSummaryData, applicationSummaryData.value, projectInventoryCount));
  }

  // ---------------------------------------------------------------------
  // What the records hold.

  lemma {:induction false} ReadFieldsShape(counts: Dict<string, int>, fields: seq<(string, string)>)
    ensures ReadFields(counts, fields).Some? <==> forall i :: 0 <= i < |fields| ==> fields[i].1 in Keys(counts)
    ensures ReadFields(counts, fields).Some? ==>
      var r := ReadFields(counts, fields).value;
      && Keys(r) == Keys(fields)
      && forall i :: 0 <= i < |fields| ==> r[i].1 == Int(Get(counts, fields[i].1).value)
  {
    if fields != [] {
      ReadFieldsShape(counts, fields[1..]);
      assert Keys(fields) == [fields[0].0] + Keys(fields[1..]);
      if ReadFields(counts, fields).Some? {
        var r := ReadFields(counts, fields).value;
        assert Keys(r) == [r[0].0] + Keys(r[1..]);
      }
      if forall i :: 0 <= i < |fields[1..]| ==> fields[1..][i].1 in Keys(counts) {
        assert forall i :: 1 <= i < |fields| ==> fields[i].1 in Keys(counts) by {
          forall i | 1 <= i < |fields| ensures fields[i].1 in Keys(counts) {
            assert fields[1..][i - 1] == fields[i];
          }
        }
      }
    }
  }

  /** A project record exists exactly when the four license counts, the
      chosen version's counts and each of its severities are there. */
  lemma ProjectRecordExists(tally: ReviewTally, info: ProjectInformation, cvssVersion: string, projectLink: string)
    ensures ProjectRecordFor(tally, info, cvssVersion, projectLink).Some? <==>
      && (forall i :: 0 <= i < |LicenseFields| ==> LicenseFields[i].1 in Keys(info.licenses))
      && SeverityKey(cvssVersion) in Keys(info.vulnerabilities)
      && (forall i :: 0 <= i < |SeverityFields(cvssVersion)| ==>
            SeverityFields(cvssVersion)[i].1 in Keys(Get(info.vulnerabilities, SeverityKey(cvssVersion)).value))
  {
    ReadFieldsShape(info.licenses, LicenseFields);
    if Get(info.vulnerabilities, SeverityKey(cvssVersion)).Some? {
      ReadFieldsShape(Get(info.vulnerabilities, SeverityKey(cvssVersion)).value, SeverityFields(cvssVersion));
    }
  }

  lemma RecordKeysDistinct(cvssVersion: string)
    ensures Distinct(RecordKeys(cvssVersion))
  {
    var licenseKeys := Keys(LicenseFields);
    assert licenseKeys == ["numP1Licenses", "numP2Licenses", "numP3Licenses", "numNALicenses"];
    var front := TallyKeys + licenseKeys;
    assert front == ["numApproved", "numRejected", "numDraft",
                     "numP1Licenses", "numP2Licenses", "numP3Licenses", "numNALicenses"];
    var severityKeys := Keys(SeverityFields(cvssVersion));
    if cvssVersion == "3.x" {
      assert severityKeys ==
        ["numCriticalVulnerabilities", "numHighVulnerabilities", "numMediumVulnerabilities",
         "numLowVulnerabilities", "numNoneVulnerabilities"];
      assert RecordKeys(cvssVersion) == front + severityKeys + ["projectLink"];
      assert front + severityKeys + ["projectLink"] == RecordKeys3;
      DistinctLiteral3();
    } else {
      assert severityKeys ==
        ["numHighVulnerabilities", "numMediumVulnerabilities", "numLowVulnerabilities", "numNoneVulnerabilities"];
      assert RecordKeys(cvssVersion) == front + severityKeys + ["projectLink"];
      assert front + severityKeys + ["projectLink"] == RecordKeys2;
      DistinctLiteral2();
    }
  }

  /** The keys of a project record under CVSS 3.x and otherwise. */
  const RecordKeys3: seq<string> := ["numApproved", "numRejected", "numDraft",
    "numP1Licenses", "numP2Licenses", "numP3Licenses", "numNALicenses",
    "numCriticalVulnerabilities", "numHighVulnerabilities", "numMediumVulnerabilities",
    "numLowVulnerabilities", "numNoneVulnerabilities", "projectLink"]
  const RecordKeys2: seq<string> := ["numApproved", "numRejected", "numDraft",
    "numP1Licenses", "numP2Licenses", "numP3Licenses", "numNALicenses",
    "numHighVulnerabilities", "numMediumVulnerabilities",
    "numLowVulnerabilities", "numNoneVulnerabilities", "projectLink"]

  lemma DistinctLiteral3()
    ensures Distinct(RecordKeys3)
  {
  }

  lemma DistinctLiteral2()
    ensures Distinct(RecordKeys2)
  {
  }

  /** The head and tail a project record is built around. */
  function TallyHead(tally: ReviewTally): ProjectRecord
  {
    [("numApproved", Int(tally.numApproved)), ("numRejected", Int(tally.numRejected)),
     ("numDraft", Int(tally.numDraft))]
  }

  /** A project record is the tally, the license counts, the severity
      counts and the link, with the keys of RecordKeys once each. */
  lemma ProjectRecordKeys(tally: ReviewTally, info: ProjectInformation, cvssVersion: string, projectLink: string)
    requires ProjectRecordFor(tally, info, cvssVersion, projectLink).Some?
    ensures var r := ProjectRecordFor(tally, info, cvssVersion, projectLink).value;
      var licenses := ReadFields(info.licenses, LicenseFields).value;
      var severities := ReadFields(Get(info.vulnerabilities, SeverityKey(cvssVersion)).value,
                                   SeverityFields(cvssVersion)).value;
      && r == TallyHead(tally) + licenses + severities + [("projectLink", Str(projectLink))]
      && Keys(r) == RecordKeys(cvssVersion)
      && DistinctKeys(r)
  {
    var r := ProjectRecordFor(tally, info, cvssVersion, projectLink).value;
    var severityCounts := Get(info.vulnerabilities, SeverityKey(cvssVersion)).value;
    var licenses := ReadFields(info.licenses, LicenseFields).value;
    var severities := ReadFields(severityCounts, SeverityFields(cvssVersion)).value;
    ReadFieldsShape(info.licenses, LicenseFields);
    ReadFieldsShape(severityCounts, SeverityFields(cvssVersion));
    var head := TallyHead(tally);
    var tail: ProjectRecord := [("projectLink", Str(projectLink))];
    assert r == head + licenses + severities + tail;
    assert Keys(head) == TallyKeys;
    assert Keys(tail) == ["projectLink"];
    KeysAppend(head, licenses);
    KeysAppend(head + licenses, severities);
    KeysAppend(head + licenses + severities, tail);
    RecordKeysDistinct(cvssVersion);
    KeysDistinct(r);
  }

  /** A project record has the keys of RecordKeys once each, starts with
      the review tally, ends with the project link, and holds counts
      everywhere else. */
  lemma ProjectRecordShape(tally: ReviewTally, info: ProjectInformation, cvssVersion: string, projectLink: string)
    requires ProjectRecordFor(tally, info, cvssVersion, projectLink).Some?
    ensures var r := ProjectRecordFor(tally, info, cvssVersion, projectLink).value;
      && Keys(r) == RecordKeys(cvssVersion)
      && DistinctKeys(r)
      && r[0] == ("numApproved", Int(tally.numApproved))
      && r[1] == ("numRejected", Int(tally.numRejected))
      && r[2] == ("numDraft", Int(tally.numDraft))
      && r[|r| - 1] == ("projectLink", Str(projectLink))
      && CountsOnly(r)
  {
    ProjectRecordKeys(tally, info, cvssVersion, projectLink);
    var r := ProjectRecordFor(tally, info, cvssVersion, projectLink).value;
    var licenses := ReadFields(info.licenses, LicenseFields).value;
    var severities := ReadFields(Get(info.vulnerabilities, SeverityKey(cvssVersion)).value,
                                 SeverityFields(cvssVersion)).value;
    ReadFieldsValues(info.licenses, LicenseFields);
    ReadFieldsValues(Get(info.vulnerabilities, SeverityKey(cvssVersion)).value, SeverityFields(cvssVersion));
    var head := TallyHead(tally);
    var body := head + licenses + severities;
    assert r == body + [("projectLink", Str(projectLink))];
    forall j | 0 <= j < |body| ensures body[j].1.Int? {
      if j < 3 {
        assert body[j] == head[j];
      } else if j < 3 + |licenses| {
        assert body[j] == licenses[j - 3];
      } else {
        assert body[j] == severities[j - 3 - |licenses|];
      }
    }
    assert forall j :: 0 <= j < |body| ==> r[j] == body[j];
  }

  /** ReadFields reads only counts. */
  lemma {:induction false} ReadFieldsValues(counts: Dict<string, int>, fields: seq<(string, string)>)
    ensures ReadFields(counts, fields).Some? ==>
      forall j :: 0 <= j < |ReadFields(counts, fields).value| ==> ReadFields(counts, fields).value[j].1.Int?
  {
    if fields != [] {
      ReadFieldsValues(counts, fields[1..]);
    }
  }

  lemma KeysAppend<V>(a: Dict<string, V>, b: Dict<string, V>)
    ensures Keys(a + b) == Keys(a) + Keys(b)
  {
  }

  /** The records of a walk that succeeded: one per project, under its
      name, each built from that project's own information and inventory. */
  lemma {:induction false} EntriesUseOwnInformation(server: Server, baseURL: string, list: seq<ProjectDescriptor>,
                                                    cvssVersion: string)
    requires ProjectEntries(server, baseURL, list, cvssVersion).Some?
    ensures var entries := ProjectEntries(server, baseURL, list, cvssVersion).value;
      && |entries| == |list|
      && forall k :: 0 <= k < |list| ==>
           && server.projectInformation(list[k].projectID).Some?
           && entries[k].0 == list[k].projectName
           && Some(entries[k].1) ==
                ProjectRecordFor(Tally(ItemsOf(server, list[k], cvssVersion)),
                                 server.projectInformation(list[k].projectID).value,
                                 cvssVersion, ProjectLink(baseURL, list[k].projectID))
  {
    if list != [] {
      var init := list[..|list| - 1];
      var project := list[|list| - 1];
      var entries := ProjectEntries(server, baseURL, list, cvssVersion).value;
      var initEntries := ProjectEntries(server, baseURL, init, cvssVersion).value;
      var entry := ProjectEntry(server, baseURL, project, cvssVersion).value;
      assert entries == initEntries + [entry];
      EntriesUseOwnInformation(server, baseURL, init, cvssVersion);
      forall k | 0 <= k < |list|
        ensures server.projectInformation(list[k].projectID).Some?
        ensures entries[k].0 == list[k].projectName
        ensures Some(entries[k].1) ==
                ProjectRecordFor(Tally(ItemsOf(server, list[k], cvssVersion)),
                                 server.projectInformation(list[k].projectID).value,
                                 cvssVersion, ProjectLink(baseURL, list[k].projectID))
      {
        if k < |init| {
          assert init[k] == list[k];
          assert entries[k] == initEntries[k];
        } else {
          assert k == |list| - 1 && list[k] == project;
          assert entries[k] == entry;
          EntryOf(server, baseURL, project, cvssVersion);
        }
      }
    }
  }

  /** A project's entry: its name, and the record of its own information. */
  lemma EntryOf(server: Server, baseURL: string, project: ProjectDescriptor, cvssVersion: string)
    requires ProjectEntry(server, baseURL, project, cvssVersion).Some?
    ensures var entry := ProjectEntry(server, baseURL, project, cvssVersion).value;
      && server.projectInformation(project.projectID).Some?
      && entry.0 == project.projectName
      && Some(entry.1) ==
           ProjectRecordFor(Tally(ItemsOf(server, project, cvssVersion)), server.projectInformation(project.projectID).value,
                            cvssVersion, ProjectLink(baseURL, project.projectID))
  {
  }

  lemma {:induction false} StreamCountsOnly(projectData: ProjectData)
    requires forall i :: 0 <= i < |projectData| ==> CountsOnly(projectData[i].1)
    ensures forall j :: 0 <= j < |Stream(projectData)| && Stream(projectData)[j].0 != "projectLink" ==>
      Stream(projectData)[j].1.Int?
  {
    if projectData != [] {
      StreamCountsOnly(projectData[..|projectData| - 1]);
      var a := Stream(projectData[..|projectData| - 1]);
      var b := projectData[|projectData| - 1].1;
      assert forall j :: |a| <= j < |a + b| ==> (a + b)[j] == b[j - |a|];
    }
  }

  lemma {:induction false} ValuesOfCounts(pairs: seq<(string, Value)>, metric: string)
    requires metric != "projectLink"
    requires forall j :: 0 <= j < |pairs| && pairs[j].0 != "projectLink" ==> pairs[j].1.Int?
    ensures SeriesTotal(ValuesOf(pairs, metric)).Some?
  {
    if pairs != [] {
      var init := pairs[..|pairs| - 1];
      assert forall j :: 0 <= j < |init| ==> init[j] == pairs[j];
      ValuesOfCounts(init, metric);
      var vs := ValuesOf(pairs, metric);
      if pairs[|pairs| - 1].0 == metric {
        assert vs[..|vs| - 1] == ValuesOf(init, metric);
      }
    }
  }

  /** Every record holds only counts besides its link, so every column of
      the chart data but projectNames and cvssVersion can be totalled: the
      application summary is always built. */
  lemma AllColumnsTotal(server: Server, baseURL: string, list: seq<ProjectDescriptor>, cvssVersion: string,
                         psd: Dict<string, Column>)
    requires ProjectEntries(server, baseURL, list, cvssVersion).Some?
    requires psd == Put(ProjectSummaryData(PutAll([], ProjectEntries(server, baseURL, list, cvssVersion).value)),
                        CvssVersionKey, Version(cvssVersion))
    ensures forall i :: 0 <= i < |psd| && Totalled(psd[i].0) ==> ColumnTotal(psd[i].1).Some?
  {
    var entries := ProjectEntries(server, baseURL, list, cvssVersion).value;
    EntriesUseOwnInformation(server, baseURL, list, cvssVersion);
    forall k | 0 <= k < |entries| ensures CountsOnly(entries[k].1) {
      ProjectRecordShape(Tally(ItemsOf(server, list[k], cvssVersion)),
                         server.projectInformation(list[k].projectID).value,
                         cvssVersion, ProjectLink(baseURL, list[k].projectID));
    }
    PutAllValues(entries, CountsOnly);
    var projectData := PutAll([], entries);
    StreamCountsOnly(projectData);
    var pairs := Stream(projectData);
    var psd0 := ProjectSummaryData(projectData);
    ProjectSummaryMeaning(projectData);
    DedupProperties(ChartedMetrics(pairs));
    PutKeys(psd0, CvssVersionKey, Version(cvssVersion));
    PutDistinct(psd0, CvssVersionKey, Version(cvssVersion));
    forall i | 0 <= i < |psd| && Totalled(psd[i].0) ensures ColumnTotal(psd[i].1).Some? {
      var metric := psd[i].0;
      GetAt(psd, i);
      PutGet(psd0, CvssVersionKey, Version(cvssVersion), metric);
      assert Keys(psd)[i] == metric;
      assert metric in Keys(psd0);
      assert metric in ChartedMetrics(pairs);
      ChartedMetricsMembers(pairs);
      ValuesOfCounts(pairs, metric);
    }
  }

  // ---------------------------------------------------------------------
  // The application totals of the review counts.

  function TallyField(t: ReviewTally, metric: string): int
  {
    if metric == "numApproved" then t.numApproved
    else if metric == "numRejected" then t.numRejected
    else t.numDraft
  }

  predicate ReviewMetric(metric: string)
  {
    metric == "numApproved" || metric == "numRejected" || metric == "numDraft"
  }

  function ProjectNames(list: seq<ProjectDescriptor>): seq<string>
  {
    seq(|list|, k requires 0 <= k < |list| => list[k].projectName)
  }

  /** A project's record holds its own tally under each review count. */
  lemma EntryReviewField(server: Server, baseURL: string, list: seq<ProjectDescriptor>, cvssVersion: string,
                         metric: string, k: nat)
    requires ReviewMetric(metric)
    requires ProjectEntries(server, baseURL, list, cvssVersion).Some?
    requires k < |list|
    ensures var entries := ProjectEntries(server, baseURL, list, cvssVersion).value;
      && |entries| == |list|
      && DistinctKeys(entries[k].1)
      && Get(entries[k].1, metric) == Some(Int(TallyField(Tally(ItemsOf(server, list[k], cvssVersion)), metric)))
  {
    EntriesUseOwnInformation(server, baseURL, list, cvssVersion);
    var entries := ProjectEntries(server, baseURL, list, cvssVersion).value;
    var tally := Tally(ItemsOf(server, list[k], cvssVersion));
    ProjectRecordShape(tally, server.projectInformation(list[k].projectID).value,
                       cvssVersion, ProjectLink(baseURL, list[k].projectID));
    var j := if metric == "numApproved" then 0 else if metric == "numRejected" then 1 else 2;
    GetAt(entries[k].1, j);
  }

  lemma EntriesReviewFields(server: Server, baseURL: string, list: seq<ProjectDescriptor>, cvssVersion: string,
                            metric: string)
    requires ReviewMetric(metric)
    requires ProjectEntries(server, baseURL, list, cvssVersion).Some?
    ensures var entries := ProjectEntries(server, baseURL, list, cvssVersion).value;
      && |entries| == |list|
      && forall k :: 0 <= k < |entries| ==>
           && DistinctKeys(entries[k].1)
           && Get(entries[k].1, metric) == Some(Int(TallyField(Tally(ItemsOf(server, list[k], cvssVersion)), metric)))
  {
    EntriesUseOwnInformation(server, baseURL, list, cvssVersion);
    var entries := ProjectEntries(server, baseURL, list, cvssVersion).value;
    forall k | 0 <= k < |entries|
      ensures DistinctKeys(entries[k].1)
      ensures Get(entries[k].1, metric) == Some(Int(TallyField(Tally(ItemsOf(server, list[k], cvssVersion)), metric)))
    {
      EntryReviewField(server, baseURL, list, cvssVersion, metric, k);
    }
  }

  /** Summed over the projects, a review count is the tally of all items. */
  lemma {:induction false} ReviewSumOverProjects(server: Server, baseURL: string, list: seq<ProjectDescriptor>,
                                                 cvssVersion: string, metric: string)
    requires ReviewMetric(metric)
    requires ProjectEntries(server, baseURL, list, cvssVersion).Some?
    requires forall i :: 0 <= i < |ProjectEntries(server, baseURL, list, cvssVersion).value| ==>
      Get(ProjectEntries(server, baseURL, list, cvssVersion).value[i].1, metric).Some?
    ensures ProjectsTotal(ProjectEntries(server, baseURL, list, cvssVersion).value, metric) ==
      TallyField(Tally(AllItems(server, list, cvssVersion)), metric)
  {
    if list != [] {
      var entries := ProjectEntries(server, baseURL, list, cvssVersion).value;
      var init := list[..|list| - 1];
      var initEntries := ProjectEntries(server, baseURL, init, cvssVersion).value;
      var last := entries[|entries| - 1];
      assert entries == initEntries + [last];
      assert entries[..|entries| - 1] == initEntries;
      assert forall i :: 0 <= i < |initEntries| ==> initEntries[i] == entries[i];
      ReviewSumOverProjects(server, baseURL, init, cvssVersion, metric);
      EntryReviewField(server, baseURL, list, cvssVersion, metric, |list| - 1);
      var items := ItemsOf(server, list[|list| - 1], cvssVersion);
      assert Get(last.1, metric) == Some(Int(TallyField(Tally(items), metric)));
      assert ProjectsTotal(entries, metric) == ProjectsTotal(initEntries, metric) + TallyField(Tally(items), metric);
      assert AllItems(server, list, cvssVersion) == AllItems(server, init, cvssVersion) + items;
      TallyAppend(AllItems(server, init, cvssVersion), items);
      assert TallyField(Tally(AllItems(server, list, cvssVersion)), metric) ==
        TallyField(Tally(AllItems(server, init, cvssVersion)), metric) + TallyField(Tally(items), metric);
    }
  }

  /** The application totals of approved, rejected and draft items count
      every item of every project once: with distinct project names, the
      chart column of a review count lists each project's tally and its
      total is the tally of all the report's items. */
  lemma ReviewTotals(server: Server, baseURL: string, list: seq<ProjectDescriptor>, cvssVersion: string, metric: string)
    requires ReviewMetric(metric)
    requires list != []
    requires Distinct(ProjectNames(list))
    requires ProjectEntries(server, baseURL, list, cvssVersion).Some?
    ensures var projectData := PutAll([], ProjectEntries(server, baseURL, list, cvssVersion).value);
      var psd := Put(ProjectSummaryData(projectData), CvssVersionKey, Version(cvssVersion));
      var column := Get(psd, metric);
      && column.Some? && column.value.Series?
      && |column.value.values| == |list|
      && (forall k :: 0 <= k < |list| ==>
            column.value.values[k] == Int(TallyField(Tally(ItemsOf(server, list[k], cvssVersion)), metric)))
      && ApplicationValue(metric, column.value) ==
           Some(Total(TallyField(Tally(AllItems(server, list, cvssVersion)), metric)))
  {
    var entries := ProjectEntries(server, baseURL, list, cvssVersion).value;
    EntriesKeys(server, baseURL, list, cvssVersion);
    KeysDistinct(entries);
    PutAllOfDistinct(entries);
    EntriesReviewFields(server, baseURL, list, cvssVersion, metric);
    ReviewSumOverProjects(server, baseURL, list, cvssVersion, metric);
    CountColumn(entries, cvssVersion, metric);
  }

  /** The chart column and application total of a review count that every
      record holds once: the records' values in order, and their sum. */
  lemma CountColumn(projectData: ProjectData, cvssVersion: string, metric: string)
    requires ReviewMetric(metric)
    requires projectData != []
    requires forall i :: 0 <= i < |projectData| ==>
      DistinctKeys(projectData[i].1) && Get(projectData[i].1, metric).Some? && Get(projectData[i].1, metric).value.Int?
    ensures var values := ValuesOf(Stream(projectData), metric);
      && Get(Put(ProjectSummaryData(projectData), CvssVersionKey, Version(cvssVersion)), metric) == Some(Series(values))
      && |values| == |projectData|
      && (forall i :: 0 <= i < |projectData| ==> values[i] == Get(projectData[i].1, metric).value)
      && ApplicationValue(metric, Series(values)) == Some(Total(ProjectsTotal(projectData, metric)))
  {
    SeriesAligned(projectData, metric);
    ApplicationTotalIsSumOfProjects(projectData, metric);
    MetricInStream(projectData, metric);
    ReviewColumn(projectData, cvssVersion, metric);
  }

  /** The walk's assignments are made under the project names, in list
      order. */
  lemma {:induction false} EntriesKeys(server: Server, baseURL: string, list: seq<ProjectDescriptor>, cvssVersion: string)
    requires ProjectEntries(server, baseURL, list, cvssVersion).Some?
    ensures Keys(ProjectEntries(server, baseURL, list, cvssVersion).value) == ProjectNames(list)
  {
    EntriesUseOwnInformation(server, baseURL, list, cvssVersion);
  }

  /** projectData has one key per distinct project name, in the order the
      names first occur in the list; a repeated name keeps its first place. */
  lemma ProjectDataKeys(server: Server, baseURL: string, list: seq<ProjectDescriptor>, cvssVersion: string)
    requires ProjectEntries(server, baseURL, list, cvssVersion).Some?
    ensures DistinctKeys(PutAll([], ProjectEntries(server, baseURL, list, cvssVersion).value))
    ensures Keys(PutAll([], ProjectEntries(server, baseURL, list, cvssVersion).value)) == Dedup(ProjectNames(list))
  {
    EntriesKeys(server, baseURL, list, cvssVersion);
    PutAllFromEmpty(ProjectEntries(server, baseURL, list, cvssVersion).value);
  }

  /** A key of the last project's record occurs in the stream. */
  lemma MetricInStream(projectData: ProjectData, metric: string)
    requires projectData != []
    requires metric in Keys(projectData[|projectData| - 1].1)
    ensures metric in Keys(Stream(projectData))
  {
    var last := projectData[|projectData| - 1].1;
    var init := Stream(projectData[..|projectData| - 1]);
    assert Stream(projectData) == init + last;
    KeysAppend(init, last);
  }

  /** A review count's chart column is its series of values. */
  lemma ReviewColumn(projectData: ProjectData, cvssVersion: string, metric: string)
    requires ReviewMetric(metric)
    requires metric in Keys(Stream(projectData))
    ensures Get(Put(ProjectSummaryData(projectData), CvssVersionKey, Version(cvssVersion)), metric) ==
      Some(Series(ValuesOf(Stream(projectData), metric)))
  {
    var psd0 := ProjectSummaryData(projectData);
    ChartedMetricsMembers(Stream(projectData));
    ProjectSummaryMeaning(projectData);
    PutDistinct(psd0, CvssVersionKey, Version(cvssVersion));
    PutGet(psd0, CvssVersionKey, Version(cvssVersion), metric);
  }

  // ---------------------------------------------------------------------
  // Which project information a project's record is built from.

  /** The information each project's record is read from as the source is
      written: a failed call leaves the previous project's information in
      place, and a failure on the first project has none to fall back on. */
  function InformationAsWritten(server: Server, list: seq<ProjectDescriptor>): Option<seq<ProjectInformation>>
  {
    if list == [] then Some([])
    else
      match InformationAsWritten(server, list[..|list| - 1])
      case None => None
      case Some(infos) =>
        match server.projectInformation(list[|list| - 1].projectID)
        case Some(info) => Some(infos + [info])
        case None => if infos == [] then None else Some(infos + [infos[|infos| - 1]])
  }

  /** When every information call answers, the code as written reads each
      project's own information, as ProjectEntries does. */
  lemma {:induction false} InformationAsWrittenWhenAllAnswer(server: Server, list: seq<ProjectDescriptor>)
    requires forall k :: 0 <= k < |list| ==> server.projectInformation(list[k].projectID).Some?
    ensures InformationAsWritten(server, list).Some?
    ensures |InformationAsWritten(server, list).value| == |list|
    ensures forall k :: 0 <= k < |list| ==>
      InformationAsWritten(server, list).value[k] == server.projectInformation(list[k].projectID).value
  {
    if list != [] {
      var init := list[..|list| - 1];
      assert forall k :: 0 <= k < |init| ==> init[k] == list[k];
      InformationAsWrittenWhenAllAnswer(server, init);
      var infos := InformationAsWritten(server, init).value;
      var info := server.projectInformation(list[|list| - 1].projectID).value;
      assert InformationAsWritten(server, list).value == infos + [info];
    }
  }

  /** A project record carries the information's P1 license count. */
  lemma RecordCarriesP1(tally: ReviewTally, info: ProjectInformation, cvssVersion: string, projectLink: string)
    requires ProjectRecordFor(tally, info, cvssVersion, projectLink).Some?
    ensures Get(info.licenses, "P1").Some?
    ensures Get(ProjectRecordFor(tally, info, cvssVersion, projectLink).value, "numP1Licenses")
            == Some(Int(Get(info.licenses, "P1").value))
  {
    var licenses := ReadFields(info.licenses, LicenseFields).value;
    ProjectRecordKeys(tally, info, cvssVersion, projectLink);
    var record := ProjectRecordFor(tally, info, cvssVersion, projectLink).value;
    assert |TallyHead(tally)| == 3;
    assert licenses[0] == ("numP1Licenses", Int(Get(info.licenses, "P1").value));
    assert record[3] == licenses[0];
    GetAt(record, 3);
  }

  /** A project record carries the information's High severity count for
      the version. */
  lemma RecordCarriesHigh(tally: ReviewTally, info: ProjectInformation, cvssVersion: string, projectLink: string)
    requires ProjectRecordFor(tally, info, cvssVersion, projectLink).Some?
    ensures Get(info.vulnerabilities, SeverityKey(cvssVersion)).Some?
    ensures Get(Get(info.vulnerabilities, SeverityKey(cvssVersion)).value, "High").Some?
    ensures Get(ProjectRecordFor(tally, info, cvssVersion, projectLink).value, "numHighVulnerabilities")
            == Some(Int(Get(Get(info.vulnerabilities, SeverityKey(cvssVersion)).value, "High").value))
  {
    var counts := Get(info.vulnerabilities, SeverityKey(cvssVersion)).value;
    var licenses := ReadFields(info.licenses, LicenseFields).value;
    var severities := ReadFields(counts, SeverityFields(cvssVersion)).value;
    ProjectRecordKeys(tally, info, cvssVersion, projectLink);
    ReadFieldsShape(counts, SeverityFields(cvssVersion));
    var record := ProjectRecordFor(tally, info, cvssVersion, projectLink).value;
    var h := if cvssVersion == "3.x" then 1 else 0;
    assert SeverityFields(cvssVersion)[h] == ("numHighVulnerabilities", "High");
    assert Keys(severities)[h] == "numHighVulnerabilities";
    var k := 3 + |licenses| + h;
    assert |TallyHead(tally)| == 3;
    assert record[k] == severities[h];
    GetAt(record, k);
  }

  /** Counts for a project with every license count a record reads. */
  const FirstLicenseCounts: Dict<string, int> := [("P1", 7), ("P2", 0), ("P3", 0), ("Unknown", 0)]

  /** Counts for a project with every CVSS 3.x severity a record reads. */
  const FirstSeverityCounts: Dict<string, int> := [("Critical", 0), ("High", 1), ("Medium", 0), ("Low", 0), ("None", 0)]

  /** Information with every count a record reads under 3.x. */
  const FirstInformation := ProjectInformation(FirstLicenseCounts, [("CvssV3", FirstSeverityCounts)])

  lemma FirstLicenses()
    ensures ReadFields(FirstLicenseCounts, LicenseFields).Some?
    ensures Get(FirstLicenseCounts, "P1") == Some(7)
  {
    var d := FirstLicenseCounts;
    assert Get(d, "Unknown") == Some(0);
    assert Get(d, "P3") == Some(0);
    assert Get(d, "P2") == Some(0);
  }

  lemma FirstSeverities()
    ensures ReadFields(FirstSeverityCounts, SeverityFields("3.x")).Some?
    ensures Get(FirstSeverityCounts, "High") == Some(1)
  {
    var d := FirstSeverityCounts;
    assert Get(d, "None") == Some(0);
    assert Get(d, "Low") == Some(0);
    assert Get(d, "Medium") == Some(0);
  }

  /** A record built from FirstInformation exists and reads its P1 license
      count and its High severity count. */
  lemma FirstRecord(tally: ReviewTally, projectLink: string)
    ensures ProjectRecordFor(tally, FirstInformation, "3.x", projectLink).Some?
    ensures Get(ProjectRecordFor(tally, FirstInformation, "3.x", projectLink).value, "numP1Licenses") == Some(Int(7))
    ensures Get(ProjectRecordFor(tally, FirstInformation, "3.x", projectLink).value, "numHighVulnerabilities")
            == Some(Int(1))
  {
    FirstLicenses();
    FirstSeverities();
    assert Get(FirstInformation.vulnerabilities, SeverityKey("3.x")) == Some(FirstSeverityCounts);
    RecordCarriesP1(tally, FirstInformation, "3.x", projectLink);
    RecordCarriesHigh(tally, FirstInformation, "3.x", projectLink);
  }

  /** Two projects, the first one's information complete and the second
      one's call failing: as written, the second project's record is built,
      and it carries the first project's license and severity counts. */
  lemma StaleInformationReused()
    ensures var server := Server(id => if id == 1 then Some(FirstInformation) else None,
                                 (id, v3) => [],
                                 id => LicenseInformation("", "", ""));
      var list := [ProjectDescriptor(1, RootMarker, "app"), ProjectDescriptor(2, ParentId(1), "lib")];
      var infos := InformationAsWritten(server, list);
      && server.projectInformation(2).None?
      && infos == Some([FirstInformation, FirstInformation])
      && ProjectRecordFor(Tally(ItemsOf(server, list[0], "3.x")), infos.value[0], "3.x", ProjectLink("", 1)).Some?
      && var second := ProjectRecordFor(Tally(ItemsOf(server, list[1], "3.x")), infos.value[1], "3.x",
                                        ProjectLink("", 2));
         && second.Some?
         && Get(second.value, "numP1Licenses") == Some(Int(7))
         && Get(second.value, "numHighVulnerabilities") == Some(Int(1))
  {
    var first := FirstInformation;
    var server := Server(id => if id == 1 then Some(first) else None,
                         (id, v3) => [],
                         id => LicenseInformation("", "", ""));
    var list := [ProjectDescriptor(1, RootMarker, "app"), ProjectDescriptor(2, ParentId(1), "lib")];
    assert list[..1][..0] == [];
    assert InformationAsWritten(server, list[..1][..0]) == Some([]);
    assert server.projectInformation(list[..1][0].projectID) == Some(first);
    assert [] + [first] == [first];
    assert InformationAsWritten(server, list[..1]) == Some([first]);
    assert [first] + [first] == [first, first];
    assert list[..|list| - 1] == list[..1];
    assert server.projectInformation(list[1].projectID) == None;
    FirstRecord(Tally(ItemsOf(server, list[0], "3.x")), ProjectLink("", 1));
    FirstRecord(Tally(ItemsOf(server, list[1], "3.x")), ProjectLink("", 2));
  }


}
