/**
 * The page state of the permit search: the breadcrumb history of searches,
 * the permits most recently fetched, the active data filters and the column
 * configuration, with the handlers that change them (the address form, the
 * nearby fallback, a search by a detail value, breadcrumb navigation, the
 * column and data-filter checkboxes). Every query's outcome is an input.
 */
module Session {
  import opened Wrappers
  import opened JsString
  import opened JsNumber
  import opened Permits
  import opened QueryLiteral
  import opened DataFilters
  import opened Nearby

  /** The `type` of a history entry. */
  datatype Kind = ExactAddress | NearbyAddress | Parameter

  /** The `criteria` of a history entry, as each search records it. */
  datatype Criteria =
    | AddressCriteria(house: string, street: string, startDate: string)
    | NearbyCriteria(house: string, streetQuery: string, startDate: string)
    | ParameterCriteria(key: string, raw: Value, activeStartDate: Option<string>)

  /** One entry of `searchHistory`: what was searched, its breadcrumb caption and the permits it returned. */
  datatype Frame = Frame(kind: Kind, criteria: Criteria, caption: string, results: seq<Record>)

  function AddressFrame(house: string, street: string, startDate: string, rows: seq<Record>): Frame {
    Frame(ExactAddress, AddressCriteria(house, street, startDate), "Address: " + house + " " + street, rows)
  }

  function NearbyFrame(house: string, streetQuery: string, startDate: string, streetDisplay: string, rows: seq<Record>): Frame {
    Frame(NearbyAddress, NearbyCriteria(house, streetQuery, startDate), "Nearby: " + house + " " + streetDisplay, rows)
  }

  function ParameterFrame(key: string, raw: Value, display: string, carried: Option<string>, rows: seq<Record>): Frame {
    Frame(Parameter, ParameterCriteria(key, raw, carried),
          "Parameter: " + UnderscoresToSpaces(key) + " = " + display, rows)
  }

  /**
   * The history a nearby search pushes onto: an exact-address entry that
   * found nothing is replaced by the nearby entry; anything else is kept.
   */
  function Popped(h: seq<Frame>): (p: seq<Frame>)
    ensures p <= h && |h| - 1 <= |p|
    ensures |p| < |h| <==> |h| > 0 && h[|h| - 1].kind == ExactAddress && h[|h| - 1].results == []
  {
    if |h| > 0 && h[|h| - 1].kind == ExactAddress && h[|h| - 1].results == [] then h[..|h| - 1] else h
  }

  /** No entry that found permits is ever dropped by a nearby search. */
  lemma PoppedKeepsResults(h: seq<Frame>, i: nat)
    requires i < |h| && h[i].results != []
    ensures i < |Popped(h)| && Popped(h)[i] == h[i]
  {
  }

  /** The start date a search by a detail value inherits: the last entry's, when it is an address search with a date. */
  function CarriedStartDate(h: seq<Frame>): (d: Option<string>)
    ensures d.Some? <==> |h| > 0 && !h[|h| - 1].criteria.ParameterCriteria? && h[|h| - 1].criteria.startDate != []
    ensures d.Some? ==> d.value == h[|h| - 1].criteria.startDate
  {
    if |h| == 0 then None
    else
      match h[|h| - 1].criteria
      case AddressCriteria(_, _, date) => if date != [] then Some(date) else None
      case NearbyCriteria(_, _, date) => if date != [] then Some(date) else None
      case ParameterCriteria(_, _, _) => None
  }

  /** What the nearby fallback reports; `ShowFailed` is the error message of its `catch`. */
  datatype NearbyStatus = NotApplicable | NoneFound | Found(count: nat) | ShowFailed

  /** What the address form ends with. */
  datatype SubmitOutcome = MissingInput | ExactFound(count: nat) | Offline | Unreachable | NearbyDone(status: NearbyStatus)

  /**
   * The message V8 gives the `TypeError` of `value.replace` on a value that
   * is not a string; the message depends on the engine, so the handlers take
   * it as an input.
   */
  const DisplayError: string := "value.replace is not a function"

  /** With this message the address form's `catch` does not take a failure to show results for a connection problem. */
  lemma DisplayErrorIsNotConnection()
    ensures !Contains(Lower(DisplayError), "failed to fetch")
  {
    var e := DisplayError;
    assert 'd' !in e && 'D' !in e;
    NoConnectionWithoutD(e);
  }

  /** Without a `d` of either case, a message never mentions "failed to fetch". */
  lemma NoConnectionWithoutD(e: string)
    requires 'd' !in e && 'D' !in e
    ensures !Contains(Lower(e), "failed to fetch")
  {
    var l := Lower(e);
    assert 'd' !in l by {
      forall i | 0 <= i < |l| ensures l[i] != 'd' { assert e[i] in e; }
    }
    ContainsNeedsChar(l, "failed to fetch", 5);
  }

  /**
   * `displayResults(rows, …)` throws: it is called only with permits, and
   * `populateDataFilters`, which it runs first, throws on a value it cannot
   * label (the data filters are empty whenever a search shows its results).
   */
  predicate DisplayThrows(cols: seq<Column>, rows: seq<Record>) {
    rows != [] && PanelThrows(cols, rows)
  }

  /** The entries a search pushes: its own and, when showing its permits threw, the `catch`'s copy with no permits. */
  function Recorded(f: Frame, thrown: bool): (h: seq<Frame>)
    ensures |h| >= 1 && h[0] == f
    ensures |h| <= 2 && (|h| == 2 <==> thrown)
    ensures thrown ==> h[1] == f.(results := [])
  {
    [f] + if thrown then [f.(results := [])] else []
  }

  /** The message the address form's `catch` receives: the failed query's, or `typeError` when showing its permits threw. */
  function Caught(exact: FetchOutcome, cols: seq<Column>, typeError: string): (e: Option<string>)
    ensures e.Some? <==> exact.Failed? || DisplayThrows(cols, exact.records)
    ensures exact.Failed? ==> e == Some(exact.message)
  {
    if exact.Failed? then Some(exact.message)
    else if DisplayThrows(cols, exact.records) then Some(typeError)
    else None
  }

  /** The entries the exact query pushes: its own when the query returned, then the `catch`'s entry with no permits when something threw. */
  function AddressEntries(house: string, street: string, startDate: string, exact: FetchOutcome, caught: Option<string>): seq<Frame> {
    (if exact.Ok? then [AddressFrame(house, street, startDate, exact.records)] else []) +
    (if caught.Some? then [AddressFrame(house, street, startDate, [])] else [])
  }

  /** Both form fields are non-blank once trimmed. */
  predicate AddressGiven(houseInput: string, streetInput: string) {
    Trim(houseInput) != [] && Trim(streetInput) != []
  }

  /** A failure the form reports without falling back to the nearby search. */
  predicate ConnectionProblem(exact: FetchOutcome, online: bool) {
    exact.Failed? && (!online || Contains(Lower(exact.message), "failed to fetch"))
  }

  /** The queries of `searchNearby`, one per candidate house number, and the de-duplication of what they return. */
  method GatherNearby(house: string, fetch: int -> FetchOutcome) returns (unique: seq<Record>)
    ensures unique == NearbyResults(house, fetch)
  {
    var parsed := ParseInt(house);
    var gathered: seq<Record> := [];
    if parsed.Some? {
      var candidates := Candidates(parsed.value);
      gathered := Accumulate(candidates, fetch);
    }
    unique := DedupeByFilingNumber(gathered);
  }

  class Session {
    var history: seq<Frame>
    var allFetched: seq<Record>
    var filters: Filters
    var columns: seq<Column>

    /** The checkbox handlers never leave an empty allow-list behind, and a column that cannot be hidden is shown. */
    ghost predicate Valid()
      reads this
    {
      NoEmptyLists(filters) && AlwaysVisibleShown(columns)
    }

    constructor()
      ensures history == [] && allFetched == [] && filters == map[] && columns == InitialColumns
      ensures Valid()
    {
      history := [];
      allFetched := [];
      filters := map[];
      columns := InitialColumns;
      InitialColumnsShown();
    }

    /** The permits in view: the last history entry's, or the last fetched when there is no history. */
    function InScope(): seq<Record>
      reads this
    {
      if |history| > 0 then history[|history| - 1].results else allFetched
    }

    /** The rows the table shows. */
    function Shown(): seq<Record>
      reads this
    {
      ApplyFilters(filters, InScope())
    }

    /** The checkbox groups of the data-filter panel: none when no permits are in view, where only a notice is shown. */
    function Domains(): seq<FilterDomain>
      reads this
    {
      if InScope() == [] then [] else FilterDomains(columns, InScope())
    }

    /** The column checkbox; the one of a column that is always visible is disabled. */
    method SetColumnVisible(i: nat, shown: bool)
      requires Valid()
      requires i < |columns| && !columns[i].alwaysVisible
      modifies this`columns
      ensures Valid()
      ensures columns == old(columns)[i := old(columns)[i].(visible := shown)]
      ensures history == old(history) && allFetched == old(allFetched) && filters == old(filters)
      ensures Domains() == old(Domains())
      ensures shown ==> columns[i].id in VisibleIds(columns)
    {
      ghost var rows, before := InScope(), Domains();
      FilterDomainsIgnoreVisibility(columns, i, shown, rows);
      columns := columns[i := columns[i].(visible := shown)];
      assert InScope() == rows;
      assert Domains() == before;
      assert columns[i].visible == shown;
    }

    /** A data-filter checkbox: checking appends the value to its field's list, unchecking removes it and drops an emptied list. */
    method SetFilterValue(key: string, value: string, checked: bool)
      requires Valid()
      modifies this`filters
      ensures Valid()
      ensures filters == if checked then Checked(old(filters), key, value) else Unchecked(old(filters), key, value)
      ensures history == old(history) && allFetched == old(allFetched) && columns == old(columns)
    {
      ghost var before := filters;
      if key !in filters {
        filters := filters[key := []];
      }
      if checked {
        filters := filters[key := filters[key] + [value]];
        assert filters == Checked(before, key, value);
      } else {
        filters := filters[key := RemoveAll(filters[key], value)];
        if filters[key] == [] {
          filters := filters - {key};
          assert filters == before - {key};
        }
      }
    }

    /** The clear button: every filter goes, and the table shows everything in view. */
    method ClearFilters()
      requires Valid()
      modifies this`filters
      ensures Valid()
      ensures filters == map[] && Shown() == InScope()
      ensures history == old(history) && allFetched == old(allFetched) && columns == old(columns)
    {
      filters := map[];
    }

    /** A breadcrumb link; only the entries before the last one are links. */
    method GoToBreadcrumb(i: nat)
      requires Valid()
      requires i + 1 < |history|
      modifies this`history, this`allFetched, this`filters
      ensures Valid()
      ensures history == old(history)[..i + 1] && history[|history| - 1] == old(history)[i]
      ensures allFetched == old(history)[i].results
      ensures filters == map[] && columns == old(columns)
      ensures Shown() == old(history)[i].results
    {
      history := history[..i + 1];
      allFetched := history[|history| - 1].results;
      filters := map[];
    }

    /**
     * `searchNearby`: query the neighbouring house numbers, keep the first
     * permit of each filing and record the search; when showing the permits
     * throws, the `catch` records the search again with no permits.
     */
    method SearchNearby(house: string, streetQuery: string, startDate: string, streetDisplay: string,
                        fetch: int -> FetchOutcome) returns (status: NearbyStatus)
      requires Valid()
      modifies this`history, this`allFetched, this`filters
      ensures Valid()
      ensures filters == map[] && columns == old(columns)
      ensures allFetched == NearbyResults(house, fetch)
      ensures history == Popped(old(history)) +
                         Recorded(NearbyFrame(house, streetQuery, startDate, streetDisplay, allFetched), DisplayThrows(columns, allFetched))
      ensures status == ShowFailed <==> DisplayThrows(columns, allFetched)
      ensures allFetched != [] && !DisplayThrows(columns, allFetched) ==> status == Found(|allFetched|)
      ensures allFetched == [] ==> status == if ParseInt(house).None? then NotApplicable else NoneFound
    {
      filters := map[];
      var unique := GatherNearby(house, fetch);
      allFetched := unique;
      ghost var before := history;
      if |history| > 0 && history[|history| - 1].kind == ExactAddress && history[|history| - 1].results == [] {
        history := history[..|history| - 1];
      }
      assert history == Popped(before);
      var frame := NearbyFrame(house, streetQuery, startDate, streetDisplay, unique);
      var thrown := DisplayThrows(columns, unique);
      history := history + Recorded(frame, thrown);
      if |unique| > 0 {
        status := if thrown then ShowFailed else Found(|unique|);
      } else if ParseInt(house).None? {
        status := NotApplicable;
      } else {
        status := NoneFound;
      }
    }

    /**
     * `initiateParameterSearch`: search by one field of a permit, inheriting
     * the start date of the search in view; `literal` is the quoted value of
     * the query's condition. When showing the permits throws, the `catch`
     * records the search again with no permits.
     */
    method SearchByParameter(key: string, raw: Value, display: string, outcome: FetchOutcome)
      returns (literal: string, carried: Option<string>)
      requires Valid()
      modifies this`history, this`allFetched, this`filters
      ensures Valid()
      ensures literal == Escape(ToJsString(raw)) && Unescape(literal) == Some(ToJsString(raw))
      ensures carried == CarriedStartDate(old(history))
      ensures filters == map[] && columns == old(columns)
      ensures history == old(history) +
                         Recorded(ParameterFrame(key, raw, display, carried, Received(outcome)), DisplayThrows(columns, Received(outcome)))
      ensures allFetched == if outcome.Ok? then outcome.records else old(allFetched)
    {
      filters := map[];
      literal := Escape(ToJsString(raw));
      UnescapeEscape(ToJsString(raw));
      carried := None;
      if |history| > 0 {
        var last := history[|history| - 1];
        if !last.criteria.ParameterCriteria? && last.criteria.startDate != [] {
          carried := Some(last.criteria.startDate);
        }
      }
      match outcome
      case Ok(data) =>
        allFetched := data;
        history := history + Recorded(ParameterFrame(key, raw, display, carried, data), DisplayThrows(columns, data));
      case Failed(_) =>
        history := history + [ParameterFrame(key, raw, display, carried, [])];
    }

    /**
     * The address form: start afresh and, when both fields are given, run
     * the exact query. `houseLiteral` and `streetLiteral` are the quoted
     * values of the exact query's conditions.
     */
    method SubmitAddress(houseInput: string, streetInput: string, startDate: string,
                         exact: FetchOutcome, online: bool, fetch: int -> FetchOutcome, typeError: string)
      returns (outcome: SubmitOutcome, houseLiteral: string, streetLiteral: string)
      requires Valid()
      modifies this`history, this`allFetched, this`filters
      ensures Valid()
      ensures filters == map[] && columns == old(columns)
      ensures !AddressGiven(houseInput, streetInput) ==> outcome == MissingInput && history == [] && allFetched == []
      ensures AddressGiven(houseInput, streetInput) ==>
                houseLiteral == Escape(Trim(houseInput)) && streetLiteral == Escape(Upper(Trim(streetInput)))
      ensures AddressGiven(houseInput, streetInput) ==>
                ExactSearchDone(Trim(houseInput), Trim(streetInput), streetLiteral, startDate, exact, online, fetch, typeError, outcome)
    {
      var house := Trim(houseInput);
      var street := Trim(streetInput);
      history, allFetched, filters := [], [], map[];
      if house == [] || street == [] {
        outcome, houseLiteral, streetLiteral := MissingInput, [], [];
        assert !AddressGiven(houseInput, streetInput);
      } else {
        houseLiteral := Escape(house);
        streetLiteral := Escape(Upper(street));
        outcome := ExactSearch(house, street, streetLiteral, startDate, exact, online, fetch, typeError);
        assert ExactSearchDone(house, street, streetLiteral, startDate, exact, online, fetch, typeError, outcome);
      }
    }

    /**
     * The exact query of the address form (its outcome is `exact`; `streetQuery`
     * is the quoted street the nearby queries reuse). Whatever
     * throws, the query or the showing of its permits, is caught: the search
     * is recorded again with no permits and, unless the browser is offline or
     * the message reports a failed connection, the nearby fallback runs; it
     * also runs when the query finds nothing.
     */
    method ExactSearch(house: string, street: string, streetQuery: string, startDate: string,
                       exact: FetchOutcome, online: bool, fetch: int -> FetchOutcome, typeError: string)
      returns (outcome: SubmitOutcome)
      requires Valid()
      requires history == [] && allFetched == [] && filters == map[]
      modifies this`history, this`allFetched, this`filters
      ensures Valid()
      ensures filters == map[] && columns == old(columns)
      ensures ExactSearchDone(house, street, streetQuery, startDate, exact, online, fetch, typeError, outcome)
    {
      var caught: Option<string> := None;
      match exact {
        case Ok(data) =>
          allFetched := data;
          history := [AddressFrame(house, street, startDate, data)];
          if data != [] {
            if !DisplayThrows(columns, data) {
              outcome := ExactFound(|data|);
              return;
            }
            caught := Some(typeError);
          }
        case Failed(message) =>
          caught := Some(message);
      }
      assert caught == Caught(exact, columns, typeError);
      if caught.Some? {
        history := history + [AddressFrame(house, street, startDate, [])];
        if !online {
          outcome := Offline;
          return;
        } else if Contains(Lower(caught.value), "failed to fetch") {
          outcome := Unreachable;
          return;
        }
      }
      assert history == AddressEntries(house, street, startDate, exact, caught);
      var status := SearchNearby(house, streetQuery, startDate, street, fetch);
      outcome := NearbyDone(status);
    }

    /**
     * The state the exact query leaves: found, a problem reported without a
     * fallback, or the nearby search's entries after what the query pushed.
     */
    ghost predicate ExactSearchDone(house: string, street: string, streetQuery: string, startDate: string,
                                    exact: FetchOutcome, online: bool, fetch: int -> FetchOutcome, typeError: string, outcome: SubmitOutcome)
      reads this
    {
      var caught := Caught(exact, columns, typeError);
      var entered := AddressEntries(house, street, startDate, exact, caught);
      && outcome != MissingInput
      && (outcome.ExactFound? <==> exact.Ok? && exact.records != [] && caught.None?)
      && (outcome.ExactFound? ==> outcome.count == |exact.records|)
      && (outcome == Offline <==> caught.Some? && !online)
      && (outcome == Unreachable <==> caught.Some? && online && Contains(Lower(caught.value), "failed to fetch"))
      && (!outcome.NearbyDone? ==> allFetched == Received(exact) && history == entered)
      && (outcome.NearbyDone? ==>
            allFetched == NearbyResults(house, fetch) &&
            history == Popped(entered) +
                       Recorded(NearbyFrame(house, streetQuery, startDate, street, allFetched),
                                DisplayThrows(columns, allFetched)))
    }
  }
}
