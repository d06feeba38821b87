/**
 * The dashboard mockup: a sidebar of eight navigation items and a content
 * area that shows the tab selected by the `activeTab` string. The tabs
 * themselves are static tables and are represented only by which one is
 * rendered.
 */
module Dashboard {

  /** The tab bodies the content area can render. */
  datatype Tab =
    | OverviewTab | AgentsTab | NodesTab | TrustChainTab
    | FederationTab | AuditLogTab | RevocationsTab | SettingsTab

  /** The tab selected when the dashboard mounts. */
  const InitialTab: string := "overview"

  /** A sidebar entry: the id it selects, its caption and its icon name. */
  datatype NavItem = NavItem(id: string, caption: string, icon: string)

  /** The sidebar entries, in display order. */
  const NavItems: seq<NavItem> := [
    NavItem("overview", "Overview", "dashboard"),
    NavItem("agents", "Agents", "smart_toy"),
    NavItem("nodes", "Nodes", "dns"),
    NavItem("trust_chain", "Trust Chain", "link"),
    NavItem("federation", "Federation", "hub"),
    NavItem("audit_logs", "Audit Log", "history"),
    NavItem("revocations", "Revocations", "block"),
    NavItem("settings", "Settings", "settings")
  ]

  /** The tab each sidebar entry leads to, entry for entry. */
  const NavTabs: seq<Tab> := [
    OverviewTab, AgentsTab, NodesTab, TrustChainTab,
    FederationTab, AuditLogTab, RevocationsTab, SettingsTab
  ]

  /**
   * `renderContent`: the switch over `activeTab`, falling back to the
   * overview. Either some case matched, or the default branch was taken.
   */
  function RenderContent(activeTab: string): (tab: Tab)
    ensures CaseLabel(tab) == activeTab || tab == OverviewTab
  {
    match activeTab
    case "overview" => OverviewTab
    case "agents" => AgentsTab
    case "nodes" => NodesTab
    case "trust_chain" => TrustChainTab
    case "federation" => FederationTab
    case "audit_logs" => AuditLogTab
    case "revocations" => RevocationsTab
    case "settings" => SettingsTab
    case _ => OverviewTab
  }

  /** The case label of the switch that selects `tab`. */
  function CaseLabel(tab: Tab): string
  {
    match tab
    case OverviewTab => "overview"
    case AgentsTab => "agents"
    case NodesTab => "nodes"
    case TrustChainTab => "trust_chain"
    case FederationTab => "federation"
    case AuditLogTab => "audit_logs"
    case RevocationsTab => "revocations"
    case SettingsTab => "settings"
  }

  /** Whether `id` is one of the sidebar ids. */
  predicate IsNavId(id: string)
  {
    exists k :: 0 <= k < |NavItems| && NavItems[k].id == id
  }

  /** Every tab has its own case: dispatching on a tab's case label renders that tab. */
  lemma DispatchRoundTrip(tab: Tab)
    ensures RenderContent(CaseLabel(tab)) == tab
  {
    match tab
    case OverviewTab =>
    case AgentsTab =>
    case NodesTab =>
    case TrustChainTab =>
    case FederationTab =>
    case AuditLogTab =>
    case RevocationsTab =>
    case SettingsTab =>
  }

  /** The sidebar entries and the switch agree: entry k selects, by its own case, the tab NavTabs[k]. */
  lemma NavItemsMatchCases()
    ensures |NavItems| == |NavTabs| == 8
    ensures forall k :: 0 <= k < |NavItems| ==> NavItems[k].id == CaseLabel(NavTabs[k])
    ensures forall k :: 0 <= k < |NavItems| ==> RenderContent(NavItems[k].id) == NavTabs[k]
    ensures forall tab :: tab in NavTabs
  {
    forall k | 0 <= k < |NavItems|
      ensures NavItems[k].id == CaseLabel(NavTabs[k])
      ensures RenderContent(NavItems[k].id) == NavTabs[k]
    {
      DispatchRoundTrip(NavTabs[k]);
    }
    forall tab: Tab ensures tab in NavTabs {
      match tab
      case OverviewTab => assert NavTabs[0] == tab;
      case AgentsTab => assert NavTabs[1] == tab;
      case NodesTab => assert NavTabs[2] == tab;
      case TrustChainTab => assert NavTabs[3] == tab;
      case FederationTab => assert NavTabs[4] == tab;
      case AuditLogTab => assert NavTabs[5] == tab;
      case RevocationsTab => assert NavTabs[6] == tab;
      case SettingsTab => assert NavTabs[7] == tab;
    }
  }

  /** The eight sidebar ids are pairwise distinct, and so are the tabs they lead to. */
  lemma NavIdsDistinct()
    ensures forall j, k :: 0 <= j < k < |NavItems| ==> NavItems[j].id != NavItems[k].id
    ensures forall j, k :: 0 <= j < k < |NavTabs| ==> NavTabs[j] != NavTabs[k]
  {
    NavItemsMatchCases();
    forall j, k | 0 <= j < k < |NavTabs| ensures NavTabs[j] != NavTabs[k] {
    }
    forall j, k | 0 <= j < k < |NavItems| ensures NavItems[j].id != NavItems[k].id {
      DispatchRoundTrip(NavTabs[j]);
      DispatchRoundTrip(NavTabs[k]);
    }
  }

  /**
   * Dispatch is total and picks exactly one body: a sidebar id renders the
   * tab whose case it is, every other string renders the overview.
   */
  lemma DispatchTotal(activeTab: string)
    ensures IsNavId(activeTab) ==> CaseLabel(RenderContent(activeTab)) == activeTab
    ensures !IsNavId(activeTab) ==> RenderContent(activeTab) == OverviewTab
  {
    NavItemsMatchCases();
    if !IsNavId(activeTab) {
      forall tab: Tab ensures CaseLabel(tab) != activeTab {
        assert tab in NavTabs;
        var k :| 0 <= k < |NavTabs| && NavTabs[k] == tab;
        assert NavItems[k].id == CaseLabel(tab);
      }
      assert activeTab != CaseLabel(RenderContent(activeTab)) ==> RenderContent(activeTab) == OverviewTab;
    } else {
      var k :| 0 <= k < |NavItems| && NavItems[k].id == activeTab;
      assert RenderContent(activeTab) == NavTabs[k];
    }
  }

  /**
   * The positions of the highlighted sidebar entries (an entry is
   * highlighted when its id equals `activeTab`): at most one, and exactly
   * the entry with that id when `activeTab` is a sidebar id.
   */
  function ActiveItems(activeTab: string): (active: set<nat>)
    ensures |active| <= 1
    ensures IsNavId(activeTab) <==> |active| == 1
    ensures forall k :: 0 <= k < |NavItems| && NavItems[k].id == activeTab ==> active == {k}
  {
    NavIdsDistinct();
    var active := set k: nat | k < |NavItems| && activeTab == NavItems[k].id;
    assert forall k :: 0 <= k < |NavItems| && NavItems[k].id == activeTab ==> k in active;
    if k :| k in active then
      assert active == {k};
      active
    else
      assert active == {};
      active
  }

  /** The dashboard's state: the selected tab id, changed only through SetActiveTab. */
  class DashboardPreview {
    var activeTab: string

    constructor ()
      ensures activeTab == InitialTab && Content() == OverviewTab
    {
      activeTab := InitialTab;
    }

    /** The body the content area renders. */
    function Content(): Tab
      reads this
    {
      RenderContent(activeTab)
    }

    /** The state setter handed to the sidebar. */
    method SetActiveTab(tab: string)
      modifies this
      ensures activeTab == tab
    {
      activeTab := tab;
    }

    /** A click on sidebar entry k: it becomes the only highlighted entry and its tab is rendered. */
    method ClickNavItem(k: nat)
      requires k < |NavItems|
      modifies this
      ensures activeTab == NavItems[k].id
      ensures ActiveItems(activeTab) == {k}
      ensures Content() == NavTabs[k]
    {
      SetActiveTab(NavItems[k].id);
      NavItemsMatchCases();
    }
  }
}
