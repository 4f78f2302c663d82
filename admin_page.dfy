/** The admin page: it loads the stored layout, lets the administrator move a
    component to the other page, and saves the layout through the
    configuration endpoint. */
module AdminPage {
  import opened Wrappers
  import opened Layout
  import opened ConfigStore
  import opened AdminController

  datatype Page = Page2 | Page3

  /** What pressing "move to page N" does to a layout. */
  datatype MoveResult =
    | Unmoved            // the component is already on that page
    | Refused            // the move would leave a page empty
    | Moved(config: PageConfig)

  const EmptyPageMessage := "Each page must have at least one component"

  function PageOf(c: PageConfig, p: Page): seq<string> {
    if p == Page2 then c.page2 else c.page3
  }

  function Other(p: Page): Page {
    if p == Page2 then Page3 else Page2
  }

  /** The page a component is taken from: page 2 if it is there, page 3 otherwise. */
  function SourcePage(c: PageConfig, component: string): Page {
    if component in c.page2 then Page2 else Page3
  }

  /** `handleMoveComponent`: drop the component from the page it is on,
      append it to the other one, and refuse a result with an empty page. */
  function Move(c: PageConfig, component: string, to: Page): MoveResult {
    var from := SourcePage(c, component);
    if from == to then Unmoved
    else
      var n := if from == Page2 then PageConfig(Remove(c.page2, component), c.page3 + [component])
               else PageConfig(c.page2 + [component], Remove(c.page3, component));
      if |n.page2| == 0 || |n.page3| == 0 then Refused else Moved(n)
  }

  /** Moving to the page the component is taken from does nothing. */
  lemma UnmovedIffSamePage(c: PageConfig, component: string, to: Page)
    ensures Move(c, component, to) == Unmoved <==>
            (to == Page2 && component in c.page2) || (to == Page3 && component !in c.page2)
  {
  }

  /** A move is refused exactly when the source page holds nothing but the component. */
  lemma RefusedIffSourceEmpties(c: PageConfig, component: string, to: Page)
    ensures var from := SourcePage(c, component);
            Move(c, component, to) == Refused <==>
              from != to && forall y | y in PageOf(c, from) :: y == component
  {
    var from := SourcePage(c, component);
    var rest := Remove(PageOf(c, from), component);
    assert |rest| == 0 <==> forall y | y in PageOf(c, from) :: y == component by {
      if |rest| > 0 {
        assert rest[0] in rest;
      }
    }
  }

  /** A completed move puts the component last on the target page, takes every
      copy of it off the source page, and keeps every other entry where it was. */
  lemma MovedPlacement(c: PageConfig, component: string, to: Page)
    requires Move(c, component, to).Moved?
    ensures var n := Move(c, component, to).config;
            var from := Other(to);
            PageOf(n, to) == PageOf(c, to) + [component] &&
            PageOf(n, from) == Remove(PageOf(c, from), component) &&
            component !in PageOf(n, from)
  {
  }

  /** A move of a component that is on some page neither adds nor loses a component. */
  lemma MoveKeepsComponents(c: PageConfig, component: string, to: Page)
    requires component in c.page2 + c.page3
    requires Move(c, component, to).Moved?
    ensures var n := Move(c, component, to).config;
            forall y :: y in n.page2 + n.page3 <==> y in c.page2 + c.page3
  {
  }

  /** A move of one of the layout's entries turns a partition of some types
      into a partition of the same types. */
  lemma {:induction false} MoveKeepsPartition(c: PageConfig, component: string, to: Page, types: seq<string>)
    requires PartitionOf(c, types)
    requires component in c.page2 + c.page3
    requires Move(c, component, to).Moved?
    ensures PartitionOf(Move(c, component, to).config, types)
  {
    var n := Move(c, component, to).config;
    var from := Other(to);
    NoRepeatsSplit(c.page2, c.page3);
    assert component in PageOf(c, from);
    RemoveKeepsNoRepeats(PageOf(c, from), component);
    assert component !in PageOf(c, to);
    NoRepeatsConcat(PageOf(c, to), [component]);
    NoRepeatsConcat(n.page2, n.page3);
  }

  /** Moving a component of the layout never turns a valid layout into an
      invalid one. (A component on neither page would be appended to page 2.) */
  lemma MoveKeepsValidLayout(c: PageConfig, component: string, to: Page)
    requires ValidLayout(c)
    requires component in c.page2 + c.page3
    requires Move(c, component, to).Moved?
    ensures ValidLayout(Move(c, component, to).config)
  {
    MoveKeepsPartition(c, component, to, ValidTypes);
  }

  /** The `||` fallback of the page's save error. */
  function SaveError(serverError: string): (message: string)
    ensures message != ""
    ensures serverError != "" ==> message == serverError
  {
    if serverError != "" then serverError else "Failed to save configuration"
  }

  class AdminView {
    var config: PageConfig
    var error: string
    var success: string

    /** The page before the configuration arrives. */
    constructor()
      ensures config == PageConfig([], []) && error == "" && success == ""
    {
      config := PageConfig([], []);
      error := "";
      success := "";
    }

    /** `loadConfig`; `delivered` is false when the request fails. */
    method LoadConfig(table: ConfigTable, delivered: bool)
      modifies this
      ensures delivered ==> config == Grouped(table.Ordered()) && error == old(error)
      ensures !delivered ==> config == old(config) && error == "Failed to load configuration"
      ensures success == old(success)
    {
      if !delivered {
        error := "Failed to load configuration";
        return;
      }
      config := GetConfig(table);
    }

    /** `handleMoveComponent`: both messages are cleared, then the move is
        applied or refused with an error. */
    method MoveComponent(component: string, to: Page)
      modifies this
      ensures success == ""
      ensures match Move(old(config), component, to)
              case Unmoved => config == old(config) && error == ""
              case Refused => config == old(config) && error == EmptyPageMessage
              case Moved(n) => config == n && error == ""
      ensures ValidLayout(old(config)) && component in old(config.page2 + config.page3) ==> ValidLayout(config)
    {
      error := "";
      success := "";
      var result := Move(config, component, to);
      match result
      case Unmoved =>
      case Refused =>
        error := EmptyPageMessage;
      case Moved(n) =>
        if ValidLayout(config) && component in config.page2 + config.page3 {
          MoveKeepsValidLayout(config, component, to);
        }
        config := n;
    }

    /** `handleSave`: a layout with an empty page is refused without a request;
        otherwise it is submitted (`delivered` is false when the request does
        not reach the server) and the page reports the outcome. A reported
        success means the stored layout now reads back as the page's layout. */
    method Save(table: ConfigTable, delivered: bool)
      modifies this, table
      ensures config == old(config)
      ensures var e := ValidationError(Some(config.page2), Some(config.page3));
              if |config.page2| == 0 || |config.page3| == 0 then
                error == EmptyPageMessage && success == "" && table.rows == old(table.rows)
              else if !delivered then
                error == "Failed to save configuration" && success == "" && table.rows == old(table.rows)
              else if e.Some? then
                error == SaveError(ErrorMessage(e.value)) && success == "" && table.rows == old(table.rows)
              else
                error == "" && success == "Configuration saved successfully!" &&
                table.rows == Stored(LayoutRows(config))
      ensures success != "" ==> Grouped(table.Ordered()) == config && ValidLayout(config)
    {
      error := "";
      success := "";
      if |config.page2| == 0 || |config.page3| == 0 {
        error := EmptyPageMessage;
        return;
      }
      if !delivered {
        error := "Failed to save configuration";
        return;
      }
      var response := UpdateConfig(Some(config.page2), Some(config.page3), table);
      if response.Ok? {
        AcceptedIffValidLayout(config.page2, config.page3);
        AcceptedLayoutIsReadBack(config, table);
        success := "Configuration saved successfully!";
      } else {
        error := SaveError(response.error);
      }
    }
  }
}
