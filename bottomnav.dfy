/** The bottom navigation bar: which of its four buttons is highlighted for the current
    route, where each button navigates, and the label shown on the highlighted one. */
module BottomNav {
  import opened Posts

  /** The four buttons, left to right in the order home, search, mark, then drawer (Menu). */
  datatype Icon = Home | Search | Mark | Drawer

  /** `getSelectedIcon`: the highlighted button for the route on top of the stack.
      The post view and any unknown route highlight nothing; no route highlights the drawer. */
  function SelectedIcon(route: string): (r: Option<Icon>)
    ensures r != Some(Drawer)
    ensures r.Some? <==> route == "Main" || route == "Search" || route == "SavedPosts"
  {
    if route == "Main" then Some(Home)
    else if route == "Search" then Some(Search)
    else if route == "SavedPosts" then Some(Mark)
    else if route == "PostView" then None
    else None
  }

  /** `handlePress`: the route a button navigates to, `None` when it does nothing. */
  function PressTarget(icon: Icon): (r: Option<string>)
    ensures r.None? <==> icon == Drawer
  {
    if icon.Search? then Some("Search")
    else if icon.Home? then Some("Main")
    else if icon.Mark? then Some("SavedPosts")
    else None
  }

  /** `iconLabels`. */
  function Label(icon: Icon): (s: string)
    ensures |s| > 0
  {
    match icon
    case Drawer => "Menu"
    case Home => "News"
    case Search => "Search"
    case Mark => "Mark"
  }

  /** A button is highlighted when it is the selected icon. */
  predicate Highlighted(route: string, icon: Icon)
  {
    SelectedIcon(route) == Some(icon)
  }

  /** The label text a button renders: its label when highlighted, nothing otherwise. */
  function ShownLabel(route: string, icon: Icon): (r: Option<string>)
    ensures r.Some? <==> Highlighted(route, icon)
    ensures r.Some? ==> r.value == Label(icon)
  {
    if Highlighted(route, icon) then Some(Label(icon)) else None
  }

  /** Pressing a button leads to the route that highlights that same button, and every
      highlighted button is the one whose press leads to the current route. */
  lemma PressHighlights(icon: Icon, route: string)
    ensures PressTarget(icon) == Some(route) <==> SelectedIcon(route) == Some(icon)
  {
  }

  /** At most one button is highlighted, so at most one label is shown. */
  lemma AtMostOneHighlighted(route: string, i: Icon, j: Icon)
    requires Highlighted(route, i) && Highlighted(route, j)
    ensures i == j
  {
  }

  /** The Menu button is never highlighted and never shows its label. */
  lemma DrawerNeverHighlighted(route: string)
    ensures !Highlighted(route, Drawer) && ShownLabel(route, Drawer) == None
  {
  }
}
