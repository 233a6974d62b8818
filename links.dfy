/**
 * The Code Insight web links the report stores (report_data.py): a
 * project's inventory tab and one inventory item within it.
 */
module Links {

  /** str(n) for a natural number: its decimal digits, most significant first. */
  function NatToString(n: nat): (s: string)
    ensures |s| >= 1
    ensures forall i :: 0 <= i < |s| ==> '0' <= s[i] <= '9'
  {
    var digit := ['0' + (n % 10) as char];
    if n < 10 then digit else NatToString(n / 10) + digit
  }

  /** str(n) for any integer. */
  function IntToString(n: int): string
  {
    if n < 0 then "-" + NatToString(-n) else NatToString(n)
  }

  /** Decimal text is read back as the number it came from. */
  function ParseNat(s: string): nat
    requires forall i :: 0 <= i < |s| ==> '0' <= s[i] <= '9'
  {
    if s == [] then 0 else 10 * ParseNat(s[..|s| - 1]) + (s[|s| - 1] - '0') as nat
  }

  /** Different ids give different links: the decimal text determines the
      number. */
  lemma {:induction false} NatToStringParses(n: nat)
    ensures ParseNat(NatToString(n)) == n
  {
    var s := NatToString(n);
    if n >= 10 {
      NatToStringParses(n / 10);
      assert s[..|s| - 1] == NatToString(n / 10);
    }
  }

  /** The part of a project link after the id. */
  const ProjectLinkTail := "&tab=projectInventory"

  /** The link to a project's inventory tab. */
  function ProjectLink(baseURL: string, projectID: int): string
  {
    baseURL + "/codeinsight/FNCI#myprojectdetails/?id=" + IntToString(projectID) + ProjectLinkTail
  }

  /** The link to one inventory item of a project. */
  function InventoryLink(baseURL: string, projectID: int, inventoryID: int): string
  {
    ProjectLink(baseURL, projectID) + "&pinv=" + IntToString(inventoryID)
  }

  /** Two projects with different non-negative ids get different links. */
  lemma ProjectLinkInjective(baseURL: string, a: nat, b: nat)
    requires ProjectLink(baseURL, a) == ProjectLink(baseURL, b)
    ensures a == b
  {
    var head := baseURL + "/codeinsight/FNCI#myprojectdetails/?id=";
    var sa, sb := NatToString(a), NatToString(b);
    assert ProjectLink(baseURL, a) == head + sa + ProjectLinkTail;
    assert ProjectLink(baseURL, b) == head + sb + ProjectLinkTail;
    assert |sa| == |sb|;
    assert sa == ProjectLink(baseURL, a)[|head|..|head| + |sa|];
    assert sb == ProjectLink(baseURL, b)[|head|..|head| + |sb|];
    NatToStringParses(a);
    NatToStringParses(b);
  }

  /** Within one project, items with different non-negative ids get
      different links. */
  lemma InventoryLinkInjective(baseURL: string, projectID: int, a: nat, b: nat)
    requires InventoryLink(baseURL, projectID, a) == InventoryLink(baseURL, projectID, b)
    ensures a == b
  {
    var head := ProjectLink(baseURL, projectID) + "&pinv=";
    var sa, sb := NatToString(a), NatToString(b);
    assert InventoryLink(baseURL, projectID, a) == head + sa;
    assert InventoryLink(baseURL, projectID, b) == head + sb;
    assert sa == InventoryLink(baseURL, projectID, a)[|head|..];
    assert sb == InventoryLink(baseURL, projectID, b)[|head|..];
    NatToStringParses(a);
    NatToStringParses(b);
  }
}
