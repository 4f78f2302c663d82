/** The admin endpoints for the page layout: `GET /admin/config` groups the
    stored rows into the two pages, `PUT /admin/config` validates a layout and
    replaces the stored rows with it. */
module AdminController {
  import opened Wrappers
  import opened Text
  import opened Layout
  import opened ConfigStore

  /** Why a submitted layout is refused, in the order the checks run. */
  datatype ConfigError =
    | EmptyPage                      // a page is missing or has no component
    | InvalidTypes(invalid: seq<string>)  // these entries are not component types
    | RepeatedComponent              // some component is listed twice
    | MissingComponent               // fewer than the three components are used

  /** The error text sent back with status 400. */
  function ErrorMessage(e: ConfigError): string {
    match e
    case EmptyPage => "Each page must have at least one component"
    case InvalidTypes(invalid) => "Invalid component types: " + Join(invalid, ", ")
    case RepeatedComponent => "Components cannot appear on multiple pages"
    case MissingComponent => "All three components must be assigned to a page"
  }

  /** An HTTP response: status 200 with a message, 400 or 500 with an error. */
  datatype Response =
    | Ok(message: string)
    | BadRequest(error: string)
    | ServerError(error: string)

  /** The entries of `s` that are not component types, in their order. */
  function InvalidComponents(s: seq<string>): (r: seq<string>)
    ensures forall x :: x in r <==> x in s && x !in ValidTypes
  {
    if |s| == 0 then []
    else
      var front := s[..|s| - 1];
      assert s == front + [s[|s| - 1]];
      InvalidComponents(front) + (if s[|s| - 1] in ValidTypes then [] else [s[|s| - 1]])
  }

  /** A single entry is reported exactly when it is not a component type. */
  lemma InvalidComponentsOne(x: string)
    ensures InvalidComponents([x]) == if x in ValidTypes then [] else [x]
  {
    assert [x][..0] == [];
  }

  /** The reported entries of a concatenation are those of each part, in
      order and with repeats, as the `filter` over the submitted list keeps them. */
  lemma {:induction false} InvalidComponentsConcat(a: seq<string>, b: seq<string>)
    ensures InvalidComponents(a + b) == InvalidComponents(a) + InvalidComponents(b)
  {
    if |b| == 0 {
      assert a + b == a;
    } else {
      var b' := b[..|b| - 1];
      assert (a + b)[..|a + b| - 1] == a + b';
      InvalidComponentsConcat(a, b');
    }
  }

  /** The checks of `updateConfig`, run in order; the first that fails decides. */
  function ValidationError(page2: Option<seq<string>>, page3: Option<seq<string>>): Option<ConfigError> {
    if page2.None? || page3.None? || |page2.value| == 0 || |page3.value| == 0 then Some(EmptyPage)
    else
      var all := page2.value + page3.value;
      var invalid := InvalidComponents(all);
      if |invalid| > 0 then Some(InvalidTypes(invalid))
      else if |ElemSet(all)| != |all| then Some(RepeatedComponent)
      else if |ElemSet(all)| != 3 then Some(MissingComponent)
      else None
  }

  /** Three distinct strings make a set of three. */
  lemma ValidTypesAreDistinct()
    ensures NoRepeats(ValidTypes)
    ensures |ElemSet(ValidTypes)| == 3
  {
    ComponentNamesDiffer();
    ElemSetSizeIsLength(ValidTypes);
  }

  /** A subset of a finite set with as many elements is the whole set. */
  lemma SubsetOfSameSize(a: set<string>, b: set<string>)
    requires a <= b && |a| == |b|
    ensures a == b
  {
    assert |b - a| == |b| - |a|;
  }

  /** The three checks after the first, stated for any list of accepted
      types without repeats: no invalid entry, no repeat and as many
      distinct entries as types hold exactly when the entries are the types,
      each once. */
  lemma PartitionCriterion(all: seq<string>, types: seq<string>, invalid: seq<string>)
    requires forall x :: x in invalid <==> x in all && x !in types
    requires NoRepeats(types)
    ensures (|invalid| == 0 && |ElemSet(all)| == |all| && |ElemSet(all)| == |types|) <==>
            (NoRepeats(all) && (forall x | x in all :: x in types) && (forall x | x in types :: x in all))
  {
    ElemSetSizeIsLength(all);
    ElemSetSizeIsLength(types);
    assert |invalid| == 0 <==> forall x | x in all :: x in types by {
      if |invalid| > 0 {
        assert invalid[0] in invalid;
      }
    }
    if (forall x | x in all :: x in types) && (forall x | x in types :: x in all) {
      assert ElemSet(all) == ElemSet(types);
    } else if (forall x | x in all :: x in types) && |ElemSet(all)| == |types| {
      assert ElemSet(all) <= ElemSet(types);
      SubsetOfSameSize(ElemSet(all), ElemSet(types));
    }
  }

  /** The server accepts a layout exactly when it is valid: both pages are
      non-empty and together they list each of the three components once. */
  lemma AcceptedIffValidLayout(page2: seq<string>, page3: seq<string>)
    ensures ValidationError(Some(page2), Some(page3)).None? <==> ValidLayout(PageConfig(page2, page3))
  {
    ValidTypesAreDistinct();
    PartitionCriterion(page2 + page3, ValidTypes, InvalidComponents(page2 + page3));
  }

  /** What each refusal means about the submitted pages. */
  lemma {:induction false} RefusalReasons(page2: seq<string>, page3: seq<string>)
    ensures var all := page2 + page3;
            var e := ValidationError(Some(page2), Some(page3));
            (e == Some(EmptyPage) <==> |page2| == 0 || |page3| == 0) &&
            (e.Some? && e.value.InvalidTypes? ==>
               |page2| > 0 && |page3| > 0 &&
               forall x :: x in e.value.invalid <==> x in all && x !in ValidTypes) &&
            (e == Some(RepeatedComponent) <==>
               |page2| > 0 && |page3| > 0 && (forall x | x in all :: x in ValidTypes) && !NoRepeats(all)) &&
            (e == Some(MissingComponent) <==>
               |page2| > 0 && |page3| > 0 && (forall x | x in all :: x in ValidTypes) && NoRepeats(all) &&
               exists x | x in ValidTypes :: x !in all)
  {
    var all := page2 + page3;
    ElemSetSizeIsLength(all);
    AcceptedIffValidLayout(page2, page3);
    var invalid := InvalidComponents(all);
    assert |invalid| == 0 <==> forall x | x in all :: x in ValidTypes by {
      if |invalid| > 0 {
        assert invalid[0] in invalid;
      }
    }
  }

  /** `configs` as `updateConfig` builds it: page 2's entries with their
      index on that page, then page 3's. */
  function PageRows(components: seq<string>, page: int): (r: seq<ConfigRow>)
    ensures |r| == |components|
    ensures forall i :: 0 <= i < |r| ==> r[i] == ConfigRow(page, components[i], i)
  {
    seq(|components|, i requires 0 <= i < |components| => ConfigRow(page, components[i], i))
  }

  function LayoutRows(c: PageConfig): seq<ConfigRow> {
    PageRows(c.page2, 2) + PageRows(c.page3, 3)
  }

  /** The two `forEach` loops that build the rows to store. */
  method BuildRows(page2: seq<string>, page3: seq<string>) returns (configs: seq<ConfigRow>)
    ensures configs == LayoutRows(PageConfig(page2, page3))
  {
    configs := [];
    var i := 0;
    while i < |page2|
      invariant 0 <= i <= |page2|
      invariant configs == PageRows(page2[..i], 2)
    {
      configs := configs + [ConfigRow(2, page2[i], i)];
      i := i + 1;
    }
    assert page2[..i] == page2;
    var j := 0;
    while j < |page3|
      invariant 0 <= j <= |page3|
      invariant configs == PageRows(page2, 2) + PageRows(page3[..j], 3)
    {
      configs := configs + [ConfigRow(3, page3[j], j)];
      j := j + 1;
    }
    assert page3[..j] == page3;
  }

  /** The stored rows of a valid layout never violate the UNIQUE constraint. */
  lemma ValidLayoutRowsAreUnique(c: PageConfig)
    requires ValidLayout(c)
    ensures UniqueKeys(LayoutRows(c))
  {
    var rows := LayoutRows(c);
    var all := c.page2 + c.page3;
    forall i, j | 0 <= i < j < |rows| ensures rows[i].componentType != rows[j].componentType {
      assert rows[i].componentType == all[i];
      assert rows[j].componentType == all[j];
    }
  }

  /** `updateConfig`: a refused layout leaves the table as it was; an
      accepted one replaces it with the layout's rows, display order being
      the position in the combined list. */
  method UpdateConfig(page2: Option<seq<string>>, page3: Option<seq<string>>, table: ConfigTable)
    returns (response: Response)
    modifies table
    ensures var e := ValidationError(page2, page3);
            if e.Some? then response == BadRequest(ErrorMessage(e.value)) && table.rows == old(table.rows)
            else response == Ok("Configuration updated successfully") &&
                 table.rows == Stored(LayoutRows(PageConfig(page2.value, page3.value)))
  {
    var e := ValidationError(page2, page3);
    if e.Some? {
      return BadRequest(ErrorMessage(e.value));
    }
    var configs := BuildRows(page2.value, page3.value);
    AcceptedIffValidLayout(page2.value, page3.value);
    ValidLayoutRowsAreUnique(PageConfig(page2.value, page3.value));
    var ok := table.Replace(configs);
    if !ok {
      assert false;
      return ServerError("Internal server error");
    }
    response := Ok("Configuration updated successfully");
  }

  /** The components of the rows on page `page`, in row order. */
  function ComponentsOn(rows: seq<ConfigRow>, page: int): seq<string> {
    if |rows| == 0 then []
    else
      var last := rows[|rows| - 1];
      ComponentsOn(rows[..|rows| - 1], page) + (if last.pageNumber == page then [last.componentType] else [])
  }

  /** The grouped configuration `getConfig` sends; rows of other pages are dropped. */
  function Grouped(rows: seq<ConfigRow>): PageConfig {
    PageConfig(ComponentsOn(rows, 2), ComponentsOn(rows, 3))
  }

  /** `getConfig`: the query's rows, grouped by page with a `forEach` loop. */
  method GetConfig(table: ConfigTable) returns (config: PageConfig)
    ensures config == Grouped(table.Ordered())
  {
    var rows := table.Ordered();
    var page2: seq<string> := [];
    var page3: seq<string> := [];
    var i := 0;
    while i < |rows|
      invariant 0 <= i <= |rows|
      invariant page2 == ComponentsOn(rows[..i], 2)
      invariant page3 == ComponentsOn(rows[..i], 3)
    {
      assert rows[..i + 1][..i] == rows[..i];
      if rows[i].pageNumber == 2 {
        page2 := page2 + [rows[i].componentType];
      } else if rows[i].pageNumber == 3 {
        page3 := page3 + [rows[i].componentType];
      }
      i := i + 1;
    }
    assert rows[..i] == rows;
    config := PageConfig(page2, page3);
  }

  lemma {:induction false} ComponentsOnConcat(a: seq<ConfigRow>, b: seq<ConfigRow>, page: int)
    ensures ComponentsOn(a + b, page) == ComponentsOn(a, page) + ComponentsOn(b, page)
  {
    if |b| == 0 {
      assert a + b == a;
    } else {
      assert (a + b)[..|a + b| - 1] == a + b[..|b| - 1];
      ComponentsOnConcat(a, b[..|b| - 1], page);
    }
  }

  /** Rows that all sit on `page` contribute all their components, in order. */
  lemma {:induction false} ComponentsOnUniform(rows: seq<ConfigRow>, page: int, components: seq<string>)
    requires |rows| == |components|
    requires forall i :: 0 <= i < |rows| ==> rows[i].pageNumber == page && rows[i].componentType == components[i]
    ensures ComponentsOn(rows, page) == components
  {
    if |rows| > 0 {
      ComponentsOnUniform(rows[..|rows| - 1], page, components[..|components| - 1]);
      assert components == components[..|components| - 1] + [components[|components| - 1]];
    }
  }

  /** Rows none of which sits on `page` contribute nothing. */
  lemma {:induction false} ComponentsOnNone(rows: seq<ConfigRow>, page: int)
    requires forall i :: 0 <= i < |rows| ==> rows[i].pageNumber != page
    ensures ComponentsOn(rows, page) == []
  {
    if |rows| > 0 {
      ComponentsOnNone(rows[..|rows| - 1], page);
    }
  }

  /** The rows stored for a layout: page 2's components with display orders
      0 .. n-1, then page 3's with display orders n onwards. */
  lemma StoredLayoutRows(c: PageConfig)
    ensures var rows := Stored(LayoutRows(c));
            var n := |c.page2|;
            |rows| == n + |c.page3| &&
            (forall i :: 0 <= i < n ==> rows[i] == ConfigRow(2, c.page2[i], i)) &&
            (forall i :: n <= i < |rows| ==> rows[i] == ConfigRow(3, c.page3[i - n], i))
  {
  }

  lemma StoredLayoutIsSorted(c: PageConfig)
    ensures SortedRows(Stored(LayoutRows(c)))
  {
    StoredLayoutRows(c);
  }

  /** Page 2's rows come first and page 3's after them. */
  lemma StoredLayoutSplits(c: PageConfig)
    ensures var rows := Stored(LayoutRows(c));
            var n := |c.page2|;
            rows == rows[..n] + rows[n..] &&
            (forall i :: 0 <= i < n ==> rows[..n][i] == ConfigRow(2, c.page2[i], i)) &&
            (forall i :: 0 <= i < |c.page3| ==> rows[n..][i] == ConfigRow(3, c.page3[i], n + i))
  {
    StoredLayoutRows(c);
  }

  /** Rows of page 2 followed by rows of page 3 group into those two pages. */
  lemma GroupedTwoPages(front: seq<ConfigRow>, back: seq<ConfigRow>, page2: seq<string>, page3: seq<string>)
    requires |front| == |page2| && |back| == |page3|
    requires forall i :: 0 <= i < |front| ==> front[i].pageNumber == 2 && front[i].componentType == page2[i]
    requires forall i :: 0 <= i < |back| ==> back[i].pageNumber == 3 && back[i].componentType == page3[i]
    ensures Grouped(front + back) == PageConfig(page2, page3)
  {
    ComponentsOnConcat(front, back, 2);
    ComponentsOnConcat(front, back, 3);
    ComponentsOnUniform(front, 2, page2);
    ComponentsOnUniform(back, 3, page3);
    ComponentsOnNone(front, 3);
    ComponentsOnNone(back, 2);
  }

  /** Grouping the stored rows of a layout gives the layout back. */
  lemma GroupedStoredLayout(c: PageConfig)
    ensures Grouped(Stored(LayoutRows(c))) == c
  {
    var rows := Stored(LayoutRows(c));
    var n := |c.page2|;
    StoredLayoutSplits(c);
    GroupedTwoPages(rows[..n], rows[n..], c.page2, c.page3);
  }

  /** Storing a layout and reading it back yields the same layout: the
      stored display order is the position in the combined list rather than
      the position on the page, but page 2's rows come first, so the order
      by page and display order is still the submitted one. */
  lemma StoreThenReadIsIdentity(c: PageConfig)
    ensures Grouped(SortRows(Stored(LayoutRows(c)))) == c
  {
    StoredLayoutIsSorted(c);
    SortRowsOfSorted(Stored(LayoutRows(c)));
    GroupedStoredLayout(c);
  }

  /** After a valid layout is stored, reading the configuration returns it unchanged. */
  lemma AcceptedLayoutIsReadBack(c: PageConfig, table: ConfigTable)
    requires ValidLayout(c)
    requires table.rows == Stored(LayoutRows(c))
    ensures Grouped(table.Ordered()) == c
    ensures ValidLayout(Grouped(table.Ordered()))
  {
    StoreThenReadIsIdentity(c);
  }

  /** The seeded table reads as the default layout. */
  lemma DefaultRowsReadAsDefaultLayout()
    ensures Grouped(SortRows(DefaultRows)) == PageConfig([AboutMe, Birthdate], [Address])
  {
    assert SortedRows(DefaultRows);
    SortRowsOfSorted(DefaultRows);
    assert DefaultRows == DefaultRows[..2] + DefaultRows[2..];
    GroupedTwoPages(DefaultRows[..2], DefaultRows[2..], [AboutMe, Birthdate], [Address]);
  }

  /** Page 2 holding the first and third of three distinct types and page 3
      the second splits those types between the pages. */
  lemma FirstAndThirdOnPage2(c: PageConfig, types: seq<string>)
    requires |types| == 3 && NoRepeats(types)
    requires c.page2 == [types[0], types[2]] && c.page3 == [types[1]]
    ensures PartitionOf(c, types)
  {
    var all := c.page2 + c.page3;
    assert all == [types[0], types[2], types[1]];
    assert forall x | x in types :: x in all by {
      assert types == [types[0], types[1], types[2]];
    }
  }

  /** The default layout is one the server itself would accept. */
  lemma DefaultLayoutIsValid()
    ensures ValidLayout(Grouped(SortRows(DefaultRows)))
  {
    DefaultRowsReadAsDefaultLayout();
    ValidTypesAreDistinct();
    FirstAndThirdOnPage2(PageConfig([AboutMe, Birthdate], [Address]), ValidTypes);
  }
}
