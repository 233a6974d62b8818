# Project inventory report data: a Dafny model

This project models the data-gathering core of a Code Insight project
inventory report. Given a root project, the report does three things:

- It flattens the project's child-project tree into a list, ordered by name
  at every level, with each entry naming its parent.
- It walks that list. For each project it records each inventory item, tallies
  the items' review statuses and caches license details so that each license
  is looked up once. It also reads the project's license and vulnerability
  counts.
- It rolls the per-project counts up into parallel chart series, one list per
  metric in project order, and then into application-wide totals.

The model also covers the xlsx summary sheet's hierarchy drawing. That drawing
writes each descendant's name one row further down and one column further in
per level.

## Modules

- `OrderedDicts` (`dicts.dfy`): a Python dict as a sequence of key/value
  pairs in insertion order.
  - `Put` replaces a value in place or appends a new key.
  - `Get` returns `None` where Python raises `KeyError`.
- `ProjectHierarchy` (`hierarchy.dfy`):
  - the project tree;
  - the name ordering and its stable sort;
  - `create_project_hierarchy`, and the project list that starts with the
    root entry.
- `HierarchyLayout` (`hierarchy_layout.dfy`): `display_project_hierarchy`
  as a write log of worksheet cells.
- `Links` (`links.dfy`): `str()` of an id, plus the project and inventory
  links.
- `VulnerabilitySummary` (`vulnerability_summary.dfy`):
  `create_inventory_summary_dict`, and the all-zero fallback an item gets
  when its counts cannot be read.
- `Inventory` (`inventory.dfy`): the per-item loop. It covers the license
  cache, the inventory records and the review tally.
- `SummaryData` (`summary_data.dfy`): `create_project_summary_data_dict`
  and `create_application_summary_data_dict`.
- `ReportData` (`report_data.dfy`): the per-project walk and
  `gather_data_for_report`.

The REST calls are modelled as the `Server` parameter. Its functions give:

- each project's information, or `None` when the call fails;
- each project's inventory for the chosen CVSS version;
- each license's details.

The report is the `Report` value, or `None` where the Python function would
raise.

## Model

| member | source | states |
|---|---|---|
| ProjectHierarchy.NameLeTotal | report_data.py:254 | Any two project names are comparable under the code-point ordering that `sorted(..., key=name)` uses. |
| ProjectHierarchy.NameLeTrans | report_data.py:254 | The name ordering is transitive. |
| ProjectHierarchy.SortByNamePermutes | report_data.py:254 | Sorting the children returns exactly the same children: it is a permutation. |
| ProjectHierarchy.SortByNameSorted | report_data.py:254 | The sorted children are in ascending name order. |
| ProjectHierarchy.SortByNameOfSorted | report_data.py:254 | Children already in name order are left as they are. |
| ProjectHierarchy.SortByNameStable | report_data.py:254 | The sort is stable: children with the same name keep their input order. |
| ProjectHierarchy.SizeSeqSort | report_data.py:254 | Sorting keeps the number of projects in the subtrees. |
| ProjectHierarchy.MembersSeqSort | report_data.py:254 | Sorting keeps the multiset of (id, name) pairs over all the subtrees. |
| ProjectHierarchy.CreateProjectHierarchy | report_data.py:247-266 | The list it returns is the incoming list followed by the preorder entries of the name-sorted children. Each child is listed with the given parent id and is followed by its own subtree. |
| ProjectHierarchy.BuildProjectList | report_data.py:37-49 | The project list is the root entry with parent "#", followed by all the descendants exactly when includeChildProjects is "true". |
| ProjectHierarchy.EntriesLength | report_data.py:247-266 | The flattening lists one entry per project in the subtrees. |
| ProjectHierarchy.DescendantsLength | report_data.py:247-266 | A project has one entry per descendant, which is every project of its tree except itself. |
| ProjectHierarchy.EntriesMembers | report_data.py:247-266 | The (id, name) pairs the flattening lists are, as a multiset, exactly those of the subtrees: nothing is lost or duplicated. |
| ProjectHierarchy.DescendantsMembers | report_data.py:247-266 | The descendant entries of a project list each project under it exactly once. |
| ProjectHierarchy.EntriesKeepLinks | report_data.py:256-264 | In a list where every entry's parent is listed earlier, appending the flattened children of a listed project keeps that property. |
| ProjectHierarchy.DescendantsKeepLinks | report_data.py:256-264 | Appending a listed project's descendants keeps every parent listed before its child. |
| ProjectHierarchy.ProjectListShape | report_data.py:37-49 | The list starts with the root (parent "#") and is well linked: every later entry's parent appears earlier. It has one entry per project in the tree when children are included, and only the root otherwise. |
| HierarchyLayout.SortTree | report_artifacts_xlsx.py:592 | Sorting a project's child lists in place keeps its id, its name and its number of projects. |
| HierarchyLayout.DisplayProjectHierarchy | report_artifacts_xlsx.py:584-601 | The returned row is the start row plus the size of the project's tree. The worksheet gets the layout's cells appended. The tree is left with every child list sorted by name. |
| HierarchyLayout.LayoutSeqMatchesEntries | report_artifacts_xlsx.py:584-601 | The cells written for a run of siblings fill consecutive rows. Each cell is at or right of the start column. The names appear in the order the project list gives them. |
| HierarchyLayout.LayoutMatchesDescendants | report_artifacts_xlsx.py:584-601 | Drawing a project writes one cell per descendant, on the rows after its own. The names come in project-list order, and each is indented right of the project's column. |
| HierarchyLayout.DirectChildrenColumn | report_artifacts_xlsx.py:590-599 | The cells one column in from the project are exactly its children's names, in name order. |
| HierarchyLayout.FirstChildPlacement | report_artifacts_xlsx.py:258-259 | Drawing from (3, 2) places the alphabetically first child at row 4, column 3, directly under the root name written at C4. |
| HierarchyLayout.SortTreeIdempotent | report_artifacts_xlsx.py:592 | Sorting a tree that has already been sorted in place changes nothing. |
| HierarchyLayout.SortTreeAllSorted | report_artifacts_xlsx.py:590-601 | After the drawing, every child list of the tree, at every depth, is in name order. |
| HierarchyLayout.SortTreeSeqSorted | report_artifacts_xlsx.py:592 | Sorting the subtrees of children that are in name order keeps them in name order. |
| HierarchyLayout.LayoutOfSorted | report_artifacts_xlsx.py:584-601 | Drawing a tree that an earlier drawing has sorted gives the same cells as drawing the original. |
| Links.NatToString | report_data.py:42 | `str()` of a non-negative id is non-empty decimal digits. |
| Links.NatToStringParses | report_data.py:42 | The decimal text of a non-negative id reads back as that id. |
| Links.ProjectLinkInjective | report_data.py:260 | Projects with different non-negative ids get different project links under the same base URL. |
| Links.InventoryLinkInjective | report_data.py:135 | Within one project, items with different non-negative ids get different inventory links. |
| VulnerabilitySummary.CreateInventorySummaryDict | report_data.py:228-244 | A summary exists exactly when every severity the CVSS version reads is present. A missing one raises `KeyError`. |
| VulnerabilitySummary.SummaryBuckets | report_data.py:228-244 | The total is the sum of every count sent. High, Medium and Low are copied. Version 2.0 sets None from Unknown. Version 3.x sets Critical and None. Any other version sets neither. |
| VulnerabilitySummary.SumValuesOverKeys | report_data.py:234 | Summing a dict's values is the same as summing it over any ordering of its keys. |
| VulnerabilitySummary.TotalIsSumOfBucketsV3 | report_data.py:234-242 | For 3.x counts with exactly the five severities, the total equals Critical + High + Medium + Low + None. |
| VulnerabilitySummary.TotalIsSumOfBucketsV2 | report_data.py:234-240 | For 2.0 counts with exactly the four severities, the total equals High + Medium + Low + None (from Unknown). |
| VulnerabilitySummary.ItemVulnerabilityDataCases | report_data.py:136-145 | When the item's first summary entry holds the version's counts (CvssV3 under 3.x, CvssV2 otherwise) with every severity the version reads, the item's data is their summary: the total of all counts, High, Medium and Low as sent, and Critical and None per version. In every other case it is the all-zero fallback. |
| Inventory.LicenseDetailOf | report_data.py:113-126 | A license is shown by its SPDX identifier, or by its short name when that is empty, with its URL. |
| Inventory.InventoryDataMeaning | report_data.py:104-168 | A project's inventoryData has one entry per distinct item id, in order of first occurrence. A repeated id keeps its first place and the record of its last item. That record holds the project name, the item and component names, and the license name and URL looked up for the item's license id (empty for "N/A"). It also holds the item's vulnerability data, its review status, and the item and project links. |
| Inventory.ResolveLicense | report_data.py:104-133 | The license detail equals a fresh lookup, and is empty for "N/A". The server is asked exactly when the id is neither "N/A" nor cached. The cache gains exactly that id and stays faithful. |
| Inventory.ProcessInventory | report_data.py:84-179 | After the item loop: the tally equals `Tally` of the items; inventoryData has every item's record put under its id, in order; the cache stays faithful and gains exactly the items' license ids; each uncached license id was looked up exactly once. |
| Inventory.TallyBound | report_data.py:172-179 | The three counts add up to at most the number of items. They equal it exactly when every status is Approved, Rejected or Draft. |
| Inventory.TallyAppend | report_data.py:172-179 | Tallies over two runs of items add up per status. |
| SummaryData.ChartedMetricsMembers | report_data.py:276-280 | The chart series are the metrics of the project records other than projectLink and P1InventoryItems. |
| SummaryData.SkeletonShape | report_data.py:276-280 | The first pass creates one empty list per charted metric, and nothing else. |
| SummaryData.AppendAllShape | report_data.py:282-287 | The second pass keeps the keys. It appends each collected metric's values, in order, to its list and leaves every other entry alone. |
| SummaryData.CreateProjectSummaryData | report_data.py:270-292 | The keys are distinct and are the charted metrics followed by projectNames. projectNames lists the project names. Each metric's list holds that metric's values in project order; cvssVersion keeps an empty list. |
| SummaryData.ProjectSummaryMeaning | report_data.py:270-292 | The same properties, stated for the summary dict as a function of projectData. |
| SummaryData.ValuesOfRecord | report_data.py:282-287 | A project record with distinct keys contributes exactly its own value to a metric's list. |
| SummaryData.SeriesAligned | report_data.py:282-287 | When every project has a metric, the metric's list has one value per project, and the i-th value is the i-th project's. |
| SummaryData.CreateApplicationSummaryData | report_data.py:295-309 | It succeeds exactly when every summed list holds only numbers. Its keys are the summary's keys without projectNames. Each metric maps to its sum, and cvssVersion is copied. |
| SummaryData.ApplicationEntriesMeaning | report_data.py:295-309 | The same properties, stated for the application dict as a function of the summary dict. |
| SummaryData.KeysWithoutNamesMembers | report_data.py:303-307 | The application keys are the summary keys other than projectNames. |
| SummaryData.ApplicationTotalIsSumOfProjects | report_data.py:282-287 | A metric's application total is the sum over all projects of that metric. |
| ReportData.ReadFieldsShape | report_data.py:185-200 | Reading the license and severity counts succeeds exactly when every field read is present. It then lists the fields in order, each with the count under its source key. |
| ReportData.ProjectRecordExists | report_data.py:182-202 | A project record can be built exactly when the information has the P1, P2, P3 and Unknown license counts, plus the CvssV3 (3.x) or CvssV2 severity counts the version reads. |
| ReportData.RecordKeysDistinct | report_data.py:182-202 | The record's field names are distinct under either CVSS version. |
| ReportData.ProjectRecordKeys | report_data.py:182-202 | A project record is the tally, then the four license counts, then the version's severity counts, then the project link. Its keys are distinct. |
| ReportData.ProjectRecordShape | report_data.py:182-202 | A project record starts with numApproved, numRejected and numDraft from the tally and ends with projectLink. Every other field is a count. |
| ReportData.GatherProject | report_data.py:54-202 | One project's pass gives `ProjectEntry` (None where the Python raises) and the inventory count. When it succeeds, it has put every item's record, kept the cache faithful, and looked up each new license once. |
| ReportData.GatherProjects | report_data.py:54-202 | The walk succeeds exactly when every project's entry does. Then projectData, inventoryData and projectInventoryCount are the ordered puts of every project's entry, records and item count. The license lookups are distinct and cover exactly the license ids of all items. |
| ReportData.GatherDataForReport | report_data.py:21-225 | A report is returned exactly when every listed project can be gathered. Its name, root project, project list, inventory data and counts are as gathered. The project summary is the roll-up plus cvssVersion. The application summary maps each summary key except projectNames to its total. |
| ReportData.EntriesKeys | report_data.py:80 | The projectData assignments are made under the project names, in list order. |
| ReportData.ProjectDataKeys | report_data.py:80 | projectData has one key per distinct project name, in order of first occurrence in the list. |
| ReportData.EntriesUseOwnInformation | report_data.py:54-202 | In a gathered report, every project's record is built from that project's own information, its own items' tally and its own link. |
| ReportData.AllColumnsTotal | report_data.py:205-209 | Every summed series of a gathered report holds only counts, so the application totals exist. |
| ReportData.ReviewTotals | report_data.py:172-184 | With distinct project names, the numApproved/numRejected/numDraft list holds each project's tally in list order. Its application total is the tally over all items of all projects. |
| ReportData.InformationAsWrittenWhenAllAnswer | report_data.py:61-65 | When every information call answers, the code as written reads each project's own information. |
| ReportData.RecordCarriesP1 | report_data.py:185 | A project record's numP1Licenses is the information's P1 license count. |
| ReportData.RecordCarriesHigh | report_data.py:190-197 | A project record's numHighVulnerabilities is the High count under the version's CvssV3 or CvssV2 key. |
| ReportData.StaleInformationReused | report_data.py:61-65 | Take two projects, where the first has complete information and the second one's information call fails. The code as written builds both records. The second project's record carries the first project's P1 license and High severity counts. |

## Left out

- Logging, `print` and the `authToken` are left out. They do not affect the data.
- The REST calls are parameters of `Server`. The recursive child-project fetch is taken as the given `ProjectNode` tree. The REST client modules are not part of this model.
- `ProjectDescriptor` does not store a `projectLink`. Both places that build one use the same formula, so the model computes `Links.ProjectLink` from the id where it is needed.
- `ReportData.GatherDataForReport` models a failing information call by returning no report. The code as written continues with stale information instead; see Findings.
- `ReportData.GatherDataForReport`: a `KeyError` on an item's own fields is not modelled, because items are typed records. A missing license or severity count in the project information is modelled, and yields no report.
- `ReportData.ReviewTotals` requires distinct project names. With a repeated name the Python dict keeps one entry, and its earlier tallies are overwritten.
- `HierarchyLayout.DisplayProjectHierarchy`: the worksheet is a log of `(row, column, text)` writes. The bold cell format and the workbook are left out. The in-place `sort()` of the caller's tree is returned as a sorted copy (`sortedProject`) rather than mutating shared state.
- The xlsx report reads `reportData["projectHierarchy"]` (report_artifacts_xlsx.py:31). `gather_data_for_report` never sets that key. The drawing is modelled on the tree it is handed.
- The rest of report_artifacts_xlsx.py, report_artifacts.py and report_artifacts_html.py is not part of this model (charts, tables, HTML). Neither is the image encoding.
- `Links.ProjectLinkInjective`: link injectivity is proved for non-negative ids only. `Links.IntToString` writes a negative id with a leading "-".

## Findings

| source | as written | input that shows it | evidently intended | confidence | as-written member | corrected member |
|---|---|---|---|---|---|---|
| report_data.py:61-65 | When `get_project_information_summary` raises, the error is logged and the loop goes on with whatever `projectInformation` the previous project left. On the first project there is none, and the name is unbound. | Two projects. The first has all license and 3.x severity counts; the second one's information call fails. The second project's record is built, with the first one's P1 license and High severity counts. | A project without information should not be reported with another project's counts. | not executed | ReportData.StaleInformationReused | ReportData.EntriesUseOwnInformation |
