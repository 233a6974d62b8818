/**
 * One project's inventory items as gather_data_for_report walks them
 * (report_data.py): the review-status tally, the per-item record, and the
 * license-details cache shared by every project of the report.
 */
module Inventory {

  import opened Wrappers
  import opened OrderedDicts
  import opened VulnerabilitySummary
  import opened Links

  /** The fields of an inventory item the report reads. A license id is
      kept as text: "N/A" marks an item with no selected license. */
  datatype InventoryItem = InventoryItem(
    id: int,
    name: string,
    componentName: string,
    priority: string,
    componentVersionName: string,
    selectedLicenseId: string,
    selectedLicenseSPDXIdentifier: string,
    url: string,
    reviewStatus: string,
    vulnerabilitySummary: seq<Dict<string, Dict<string, int>>>)

  /** The server's answer to a license lookup. */
  datatype LicenseInformation = LicenseInformation(url: string, spdxIdentifier: string, shortName: string)

  /** A licenseDetails cache entry. */
  datatype LicenseDetail = LicenseDetail(selectedLicenseName: string, selectedLicenseUrl: string)

  /** inventoryData[inventoryID] */
  datatype InventoryRecord = InventoryRecord(
    projectName: string,
    inventoryItemName: string,
    componentName: string,
    componentVersionName: string,
    selectedLicenseName: string,
    vulnerabilityData: InventorySummary,
    inventoryPriority: string,
    componentUrl: string,
    selectedLicenseUrl: string,
    inventoryReviewStatus: string,
    inventoryLink: string,
    projectLink: string)

  datatype ReviewTally = ReviewTally(numApproved: nat, numRejected: nat, numDraft: nat)

  const NoLicense := "N/A"

  /** The name shown for a license: its SPDX identifier, or its short name
      where it has none. */
  function LicenseDetailOf(info: LicenseInformation): (r: LicenseDetail)
    ensures r.selectedLicenseUrl == info.url
    ensures info.spdxIdentifier != "" ==> r.selectedLicenseName == info.spdxIdentifier
    ensures info.spdxIdentifier == "" ==> r.selectedLicenseName == info.shortName
  {
    var licenseName := if info.spdxIdentifier != "" then info.spdxIdentifier else info.shortName;
    LicenseDetail(licenseName, info.url)
  }

  /** The license an item is reported with, without any cache: none for
      "N/A", otherwise what the server says about its id. */
  function ItemLicense(item: InventoryItem, getLicenseDetails: string -> LicenseInformation): LicenseDetail
  {
    if item.selectedLicenseId == NoLicense then LicenseDetail("", "")
    else LicenseDetailOf(getLicenseDetails(item.selectedLicenseId))
  }

  /** What the report stores for an item. */
  function RecordFor(baseURL: string, projectID: int, projectName: string, item: InventoryItem, cvssVersion: string,
                     getLicenseDetails: string -> LicenseInformation): InventoryRecord
  {
    var license := ItemLicense(item, getLicenseDetails);
    InventoryRecord(projectName, item.name, item.componentName, item.componentVersionName,
                    license.selectedLicenseName, ItemVulnerabilityData(item.vulnerabilitySummary, cvssVersion),
                    item.priority, item.url, license.selectedLicenseUrl, item.reviewStatus,
                    InventoryLink(baseURL, projectID, item.id), ProjectLink(baseURL, projectID))
  }

  /** The assignments inventoryData[item.id] = record, in item order. */
  function Records(baseURL: string, projectID: int, projectName: string, items: seq<InventoryItem>, cvssVersion: string,
                   getLicenseDetails: string -> LicenseInformation): seq<(int, InventoryRecord)>
  {
    seq(|items|, i requires 0 <= i < |items| =>
      (items[i].id, RecordFor(baseURL, projectID, projectName, items[i], cvssVersion, getLicenseDetails)))
  }

  /** The running review-status counts after the items, in order. */
  function Tally(items: seq<InventoryItem>): ReviewTally
  {
    if items == [] then ReviewTally(0, 0, 0)
    else
      var t := Tally(items[..|items| - 1]);
      var status := items[|items| - 1].reviewStatus;
      if status == "Approved" then t.(numApproved := t.numApproved + 1)
      else if status == "Rejected" then t.(numRejected := t.numRejected + 1)
      else if status == "Draft" then t.(numDraft := t.numDraft + 1)
      else t
  }

  predicate KnownStatus(status: string)
  {
    status == "Approved" || status == "Rejected" || status == "Draft"
  }

  /** Every cached entry is what a fresh lookup of its id would give, and
      "N/A" is never cached. */
  predicate CacheFaithful(licenseDetails: map<string, LicenseDetail>, getLicenseDetails: string -> LicenseInformation)
  {
    forall id :: id in licenseDetails ==>
      id != NoLicense && licenseDetails[id] == LicenseDetailOf(getLicenseDetails(id))
  }

  /** The license ids of items that have a license. */
  function LicenseIds(items: seq<InventoryItem>): set<string>
  {
    set i | 0 <= i < |items| && items[i].selectedLicenseId != NoLicense :: items[i].selectedLicenseId
  }

  lemma LicenseIdsSnoc(items: seq<InventoryItem>, i: nat)
    requires i < |items|
    ensures LicenseIds(items[..i + 1]) ==
      LicenseIds(items[..i]) + (if items[i].selectedLicenseId != NoLicense then {items[i].selectedLicenseId} else {})
  {
    var a := items[..i];
    var b := items[..i + 1];
    forall x | x in LicenseIds(b) ensures x in LicenseIds(a) || (x == items[i].selectedLicenseId && x != NoLicense) {
      var j :| 0 <= j < |b| && b[j].selectedLicenseId != NoLicense && b[j].selectedLicenseId == x;
      if j < i {
        assert a[j] == b[j];
      }
    }
    forall x | x in LicenseIds(a) ensures x in LicenseIds(b) {
      var j :| 0 <= j < |a| && a[j].selectedLicenseId != NoLicense && a[j].selectedLicenseId == x;
      assert b[j] == a[j];
    }
    if items[i].selectedLicenseId != NoLicense {
      assert b[i] == items[i];
    }
  }

  /** The license of one item, read from licenseDetails when its id is
      cached, looked up and cached when it is not, and empty for "N/A".
      lookedUp says whether the server was asked. */
  method ResolveLicense(selectedLicenseId: string, getLicenseDetails: string -> LicenseInformation,
                        licenseDetails: map<string, LicenseDetail>)
    returns (detail: LicenseDetail, licenseDetailsOut: map<string, LicenseDetail>, lookedUp: bool)
    requires CacheFaithful(licenseDetails, getLicenseDetails)
    ensures detail == (if selectedLicenseId == NoLicense then LicenseDetail("", "")
                       else LicenseDetailOf(getLicenseDetails(selectedLicenseId)))
    ensures CacheFaithful(licenseDetailsOut, getLicenseDetails)
    ensures licenseDetailsOut.Keys == licenseDetails.Keys + (if selectedLicenseId != NoLicense then {selectedLicenseId} else {})
    ensures lookedUp <==> selectedLicenseId != NoLicense && selectedLicenseId !in licenseDetails
  {
    licenseDetailsOut := licenseDetails;
    lookedUp := false;
    if selectedLicenseId in licenseDetails {
      detail := LicenseDetail(licenseDetails[selectedLicenseId].selectedLicenseName,
                              licenseDetails[selectedLicenseId].selectedLicenseUrl);
    } else if selectedLicenseId != NoLicense {
      var licenseInformation := getLicenseDetails(selectedLicenseId);
      lookedUp := true;
      var licenseName := if licenseInformation.spdxIdentifier != "" then licenseInformation.spdxIdentifier
                         else licenseInformation.shortName;
      licenseDetailsOut := licenseDetails[selectedLicenseId := LicenseDetail(licenseName, licenseInformation.url)];
      detail := LicenseDetail(licenseName, licenseInformation.url);
    } else {
      detail := LicenseDetail("", "");
    }
  }

  lemma RecordsStep(inventoryData: Dict<int, InventoryRecord>, records: seq<(int, InventoryRecord)>, i: nat,
                    before: Dict<int, InventoryRecord>)
    requires i < |records|
    requires before == PutAll(inventoryData, records[..i])
    ensures Put(before, records[i].0, records[i].1) == PutAll(inventoryData, records[..i + 1])
  {
    assert records[..i + 1][..i] == records[..i];
  }

  lemma TallyStep(items: seq<InventoryItem>, i: nat, before: ReviewTally, after: ReviewTally)
    requires i < |items|
    requires before == Tally(items[..i])
    requires var status := items[i].reviewStatus;
      after == if status == "Approved" then before.(numApproved := before.numApproved + 1)
               else if status == "Rejected" then before.(numRejected := before.numRejected + 1)
               else if status == "Draft" then before.(numDraft := before.numDraft + 1)
               else before
    ensures after == Tally(items[..i + 1])
  {
    assert items[..i + 1][..i] == items[..i];
  }

  lemma LookupsStep(items: seq<InventoryItem>, i: nat, licenseDetails: map<string, LicenseDetail>,
                    cacheBefore: map<string, LicenseDetail>, cacheAfter: map<string, LicenseDetail>,
                    lookupsBefore: seq<string>, lookupsAfter: seq<string>)
    requires i < |items|
    requires cacheBefore.Keys == licenseDetails.Keys + LicenseIds(items[..i])
    requires Distinct(lookupsBefore)
    requires forall id :: id in lookupsBefore <==> id in LicenseIds(items[..i]) && id !in licenseDetails
    requires var id := items[i].selectedLicenseId;
      cacheAfter.Keys == cacheBefore.Keys + (if id != NoLicense then {id} else {})
    requires var id := items[i].selectedLicenseId;
      lookupsAfter == if id != NoLicense && id !in cacheBefore then lookupsBefore + [id] else lookupsBefore
    ensures cacheAfter.Keys == licenseDetails.Keys + LicenseIds(items[..i + 1])
    ensures Distinct(lookupsAfter)
    ensures forall id :: id in lookupsAfter <==> id in LicenseIds(items[..i + 1]) && id !in licenseDetails
  {
    LicenseIdsSnoc(items, i);
  }

  /** The inner loop of gather_data_for_report for one project. Each item's
      record is stored under its id (Records), the review statuses are
      tallied, and each license id not yet in licenseDetails is looked up
      once, in item order, and cached; lookups lists those lookups. */
  method ProcessInventory(baseURL: string, projectID: int, projectName: string, items: seq<InventoryItem>, cvssVersion: string,
                          getLicenseDetails: string -> LicenseInformation,
                          licenseDetails: map<string, LicenseDetail>,
                          inventoryData: Dict<int, InventoryRecord>)
    returns (tally: ReviewTally, licenseDetailsOut: map<string, LicenseDetail>,
             inventoryDataOut: Dict<int, InventoryRecord>, lookups: seq<string>)
    requires CacheFaithful(licenseDetails, getLicenseDetails)
    ensures tally == Tally(items)
    ensures inventoryDataOut == PutAll(inventoryData, Records(baseURL, projectID, projectName, items, cvssVersion, getLicenseDetails))
    ensures CacheFaithful(licenseDetailsOut, getLicenseDetails)
    ensures licenseDetailsOut.Keys == licenseDetails.Keys + LicenseIds(items)
    ensures Distinct(lookups)
    ensures forall id :: id in lookups <==> id in LicenseIds(items) && id !in licenseDetails
  {
    tally := ReviewTally(0, 0, 0);
    licenseDetailsOut := licenseDetails;
    inventoryDataOut := inventoryData;
    lookups := [];
    ghost var records := Records(baseURL, projectID, projectName, items, cvssVersion, getLicenseDetails);
    for i := 0 to |items|
      invariant tally == Tally(items[..i])
      invariant inventoryDataOut == PutAll(inventoryData, records[..i])
      invariant CacheFaithful(licenseDetailsOut, getLicenseDetails)
      invariant licenseDetailsOut.Keys == licenseDetails.Keys + LicenseIds(items[..i])
      invariant Distinct(lookups)
      invariant forall id :: id in lookups <==> id in LicenseIds(items[..i]) && id !in licenseDetails
    {
      var item := items[i];
      ghost var cacheBefore, lookupsBefore, tallyBefore := licenseDetailsOut, lookups, tally;
      var license, lookedUp;
      license, licenseDetailsOut, lookedUp := ResolveLicense(item.selectedLicenseId, getLicenseDetails, licenseDetailsOut);
      if lookedUp {
        lookups := lookups + [item.selectedLicenseId];
      }
      var record := InventoryRecord(projectName, item.name, item.componentName, item.componentVersionName,
                                    license.selectedLicenseName,
                                    ItemVulnerabilityData(item.vulnerabilitySummary, cvssVersion),
                                    item.priority, item.url, license.selectedLicenseUrl, item.reviewStatus,
                                    InventoryLink(baseURL, projectID, item.id), ProjectLink(baseURL, projectID));
      assert records[i] == (item.id, record);
      RecordsStep(inventoryData, records, i, inventoryDataOut);
      inventoryDataOut := Put(inventoryDataOut, item.id, record);

      if item.reviewStatus == "Approved" {
        tally := tally.(numApproved := tally.numApproved + 1);
      } else if item.reviewStatus == "Rejected" {
        tally := tally.(numRejected := tally.numRejected + 1);
      } else if item.reviewStatus == "Draft" {
        tally := tally.(numDraft := tally.numDraft + 1);
      }
      TallyStep(items, i, tallyBefore, tally);
      LookupsStep(items, i, licenseDetails, cacheBefore, licenseDetailsOut, lookupsBefore, lookups);
    }
    assert items[..|items|] == items;
    assert records[..|items|] == records;
  }

  // ---------------------------------------------------------------------

  /** The ids of the items, in order. */
  function ItemIds(items: seq<InventoryItem>): seq<int>
  {
    seq(|items|, i requires 0 <= i < |items| => items[i].id)
  }

  /** No later item shares the id of items[i]. */
  predicate LastWithId(items: seq<InventoryItem>, i: nat)
    requires i < |items|
  {
    forall j :: i < j < |items| ==> items[j].id != items[i].id
  }

  /** inventoryData for one project's items, built from empty: one entry
      per distinct inventory id, in order of first occurrence; an id that
      occurs twice keeps its first place and the record of its last item.
      That record names the item's project and component, carries the
      item's license as looked up ("" for "N/A") and its vulnerability data,
      and links to the item and its project. */
  lemma InventoryDataMeaning(baseURL: string, projectID: int, projectName: string, items: seq<InventoryItem>,
                             cvssVersion: string, getLicenseDetails: string -> LicenseInformation)
    ensures var d := PutAll([], Records(baseURL, projectID, projectName, items, cvssVersion, getLicenseDetails));
      && DistinctKeys(d)
      && Keys(d) == Dedup(ItemIds(items))
      && (forall id :: id !in ItemIds(items) ==> Get(d, id) == None)
      && forall i :: 0 <= i < |items| && LastWithId(items, i) ==>
           var item := items[i];
           var license := if item.selectedLicenseId == NoLicense then LicenseDetail("", "")
                          else LicenseDetailOf(getLicenseDetails(item.selectedLicenseId));
           && Get(d, item.id).Some?
           && Get(d, item.id).value.projectName == projectName
           && Get(d, item.id).value.inventoryItemName == item.name
           && Get(d, item.id).value.componentName == item.componentName
           && Get(d, item.id).value.componentVersionName == item.componentVersionName
           && Get(d, item.id).value.selectedLicenseName == license.selectedLicenseName
           && Get(d, item.id).value.selectedLicenseUrl == license.selectedLicenseUrl
           && Get(d, item.id).value.vulnerabilityData == ItemVulnerabilityData(item.vulnerabilitySummary, cvssVersion)
           && Get(d, item.id).value.inventoryReviewStatus == item.reviewStatus
           && Get(d, item.id).value.inventoryLink == InventoryLink(baseURL, projectID, item.id)
           && Get(d, item.id).value.projectLink == ProjectLink(baseURL, projectID)
  {
    var records := Records(baseURL, projectID, projectName, items, cvssVersion, getLicenseDetails);
    PutAllFromEmpty(records);
    assert Keys(records) == ItemIds(items);
    forall id | id !in ItemIds(items) ensures LastValue(records, id) == None {
      forall j | 0 <= j < |records| ensures records[j].0 != id {
        assert ItemIds(items)[j] == records[j].0;
      }
      LastValueAbsent(records, id);
    }
    forall i | 0 <= i < |items| && LastWithId(items, i)
      ensures LastValue(records, items[i].id)
              == Some(RecordFor(baseURL, projectID, projectName, items[i], cvssVersion, getLicenseDetails))
    {
      LastValueAt(records, i);
    }
  }

  /** Every item counts at most once, and the three counts add up to the
      number of items exactly when every status is Approved, Rejected or
      Draft. */
  lemma {:induction false} TallyBound(items: seq<InventoryItem>)
    ensures var t := Tally(items);
      && t.numApproved + t.numRejected + t.numDraft <= |items|
      && (t.numApproved + t.numRejected + t.numDraft == |items| <==>
          forall i :: 0 <= i < |items| ==> KnownStatus(items[i].reviewStatus))
  {
    if items != [] {
      var init := items[..|items| - 1];
      TallyBound(init);
      var last := items[|items| - 1];
      assert forall i :: 0 <= i < |init| ==> init[i] == items[i];
      if !KnownStatus(last.reviewStatus) {
        assert !(forall i :: 0 <= i < |items| ==> KnownStatus(items[i].reviewStatus));
      }
    }
  }

  /** Tallies add up: the counts over two runs of items are the sums of
      the counts over each, so a project's tally can be split anywhere. */
  lemma {:induction false} TallyAppend(items: seq<InventoryItem>, more: seq<InventoryItem>)
    ensures var a := Tally(items); var b := Tally(more); var t := Tally(items + more);
      && t.numApproved == a.numApproved + b.numApproved
      && t.numRejected == a.numRejected + b.numRejected
      && t.numDraft == a.numDraft + b.numDraft
    decreases |more|
  {
    if more != [] {
      TallyAppend(items, more[..|more| - 1]);
      assert (items + more)[..|items + more| - 1] == items + more[..|more| - 1];
    } else {
      assert items + more == items;
    }
  }
}
