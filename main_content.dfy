/** The heading of the main listing: a title and a one-line description for
    the view picked in the sidebar. Any view the switch does not name falls
    back to a default. */
module MainContent {

  /** The views `getViewTitle` names. */
  const TitledViews: set<string> := {"inbox", "specs", "assigned", "archived", "team", "cycles", "settings"}

  /** The views `getViewDescription` names. */
  const DescribedViews: set<string> := {"inbox", "specs", "assigned", "archived"}

  /** `getViewTitle`. */
  function ViewTitle(view: string): (title: string)
    ensures view == "inbox" ==> title == "Inbox"
    ensures view == "specs" ==> title == "All Specs"
    ensures view == "assigned" ==> title == "Assigned to me"
    ensures view == "archived" ==> title == "Archived"
    ensures view == "team" ==> title == "Team"
    ensures view == "cycles" ==> title == "Cycles"
    ensures view == "settings" ==> title == "Settings"
    ensures view !in TitledViews ==> title == "All Specs"
  {
    match view
    case "inbox" => "Inbox"
    case "specs" => "All Specs"
    case "assigned" => "Assigned to me"
    case "archived" => "Archived"
    case "team" => "Team"
    case "cycles" => "Cycles"
    case "settings" => "Settings"
    case _ => "All Specs"
  }

  /** `getViewDescription`. */
  function ViewDescription(view: string): (description: string)
    ensures view == "inbox" ==> description == "Specs that need your attention"
    ensures view == "specs" ==> description == "All specifications in your workspace"
    ensures view == "assigned" ==> description == "Specs assigned to you"
    ensures view == "archived" ==> description == "Archived specifications"
    ensures view !in DescribedViews ==> description == "Manage your specifications"
  {
    match view
    case "inbox" => "Specs that need your attention"
    case "specs" => "All specifications in your workspace"
    case "assigned" => "Specs assigned to you"
    case "archived" => "Archived specifications"
    case _ => "Manage your specifications"
  }

  /** Only the "specs" view and views the switch does not know are titled "All Specs". */
  lemma AllSpecsTitle(view: string)
    ensures ViewTitle(view) == "All Specs" <==> view == "specs" || view !in TitledViews
  {
  }

  /** Team, cycles and settings have titles of their own but the default description. */
  lemma TitledButUndescribed(view: string)
    requires view in TitledViews - DescribedViews
    ensures ViewDescription(view) == "Manage your specifications"
    ensures ViewTitle(view) != "All Specs"
  {
  }

  /** Distinct known views have distinct titles. */
  lemma TitlesDistinct(v: string, w: string)
    requires v in TitledViews && w in TitledViews && v != w
    ensures ViewTitle(v) != ViewTitle(w)
  {
  }
}
