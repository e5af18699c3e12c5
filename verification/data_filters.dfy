/**
 * The filter pipeline: per-field allow-lists (`activeDataFilters`) applied to
 * rows, the checkbox toggles that edit them, the sorted value domain offered
 * for each filterable column, and the column configuration whose visibility
 * flags shape only the projection.
 */
module DataFilters {
  import opened Wrappers
  import opened JsString
  import opened Permits
  import opened Seqs

  /** `activeDataFilters`: field name to the list of allowed values. */
  type Filters = map<string, seq<string>>

  /** The state the toggles keep: no field is left mapped to an empty list. */
  predicate NoEmptyLists(f: Filters) {
    forall k :: k in f ==> f[k] != []
  }

  /** `String(getField(permit, key))`, with `'N/A'` for a missing value. */
  function CellText(p: Record, key: string): string {
    ToJsString(GetField(p, key, NA))
  }

  /** The row predicate of `applyActiveDataFilters`: every non-empty allow-list contains the row's value. */
  predicate Passes(f: Filters, p: Record) {
    forall k :: k in f && f[k] != [] ==> CellText(p, k) in f[k]
  }

  /**
   * `applyActiveDataFilters`: with no filter the rows come back unchanged;
   * otherwise exactly the rows that pass are kept, in order, each as often as it occurs.
   */
  function ApplyFilters(f: Filters, rows: seq<Record>): (r: seq<Record>)
    ensures f == map[] ==> r == rows
    ensures forall i :: 0 <= i < |r| ==> Passes(f, r[i])
    ensures forall p :: multiset(r)[p] == if Passes(f, p) then multiset(rows)[p] else 0
  {
    if |f| == 0 then rows
    else
      FilterMultiset(p => Passes(f, p), rows);
      Filter(p => Passes(f, p), rows)
  }

  /** Filtering keeps the rows' order: it distributes over concatenation. */
  lemma {:induction false} ApplyFiltersConcat(f: Filters, a: seq<Record>, b: seq<Record>)
    ensures ApplyFilters(f, a + b) == ApplyFilters(f, a) + ApplyFilters(f, b)
  {
    if |f| != 0 { FilterConcat(p => Passes(f, p), a, b); }
  }

  /** Applying the same filters twice is applying them once. */
  lemma {:induction false} ApplyFiltersIdempotent(f: Filters, rows: seq<Record>)
    ensures ApplyFilters(f, ApplyFilters(f, rows)) == ApplyFilters(f, rows)
  {
    if |f| != 0 { FilterAllKept(p => Passes(f, p), ApplyFilters(f, rows)); }
  }

  /** A field whose allow-list is empty constrains nothing. */
  lemma {:induction false} EmptyListIgnored(f: Filters, k: string, rows: seq<Record>)
    requires k in f && f[k] == []
    ensures ApplyFilters(f, rows) == ApplyFilters(f - {k}, rows)
  {
    var g := f - {k};
    assert forall p :: Passes(f, p) <==> Passes(g, p) by {
      forall p ensures Passes(f, p) <==> Passes(g, p) {
        if Passes(g, p) {
          forall j | j in f && f[j] != [] ensures CellText(p, j) in f[j] { assert j in g; }
        }
      }
    }
    if |g| == 0 {
      FilterAllKept(p => Passes(f, p), rows);
    } else {
      FilterSamePredicate(p => Passes(f, p), p => Passes(g, p), rows);
    }
  }

  /** `list.filter(v => v !== value)`. */
  function RemoveAll(l: seq<string>, v: string): (r: seq<string>)
    ensures forall x :: x in r <==> x in l && x != v
    ensures v !in l ==> r == l
  {
    if l == [] then []
    else (if l[0] == v then [] else [l[0]]) + RemoveAll(l[1..], v)
  }

  /** The filters after a value's checkbox is checked: the value is appended to the field's list, which is created if absent. */
  function Checked(f: Filters, k: string, v: string): (g: Filters)
    ensures k in g && v in g[k]
    ensures g[k] == (if k in f then f[k] else []) + [v]
    ensures NoEmptyLists(f) ==> NoEmptyLists(g)
    ensures forall j :: j != k ==> (j in g <==> j in f) && (j in f ==> g[j] == f[j])
  {
    f[k := (if k in f then f[k] else []) + [v]]
  }

  /** The filters after a value's checkbox is cleared: every copy is removed and the field is dropped once its list is empty. */
  function Unchecked(f: Filters, k: string, v: string): (g: Filters)
    ensures k in g ==> v !in g[k]
    ensures k in g ==> k in f && g[k] == RemoveAll(f[k], v)
    ensures forall x :: k in f && x in f[k] && x != v ==> k in g && x in g[k]
    ensures k in g ==> forall x :: x in g[k] ==> x in f[k]
    ensures NoEmptyLists(f) ==> NoEmptyLists(g)
    ensures forall j :: j != k ==> (j in g <==> j in f) && (j in f ==> g[j] == f[j])
  {
    var rest := RemoveAll(if k in f then f[k] else [], v);
    if rest == [] then f - {k} else f[k := rest]
  }

  /** Clearing a checkbox that was just checked restores the filters exactly. */
  lemma {:induction false} UncheckUndoesCheck(f: Filters, k: string, v: string)
    requires NoEmptyLists(f)
    requires k in f ==> v !in f[k]
    ensures Unchecked(Checked(f, k, v), k, v) == f
  {
    var old_ := if k in f then f[k] else [];
    assert RemoveAll(old_ + [v], v) == old_ by { RemoveAllAppend(old_, v); }
  }

  lemma {:induction false} RemoveAllAppend(l: seq<string>, v: string)
    requires v !in l
    ensures RemoveAll(l + [v], v) == l
  {
    if l != [] {
      assert (l + [v])[1..] == l[1..] + [v];
      RemoveAllAppend(l[1..], v);
      assert l == [l[0]] + l[1..];
    } else {
      assert RemoveAll([v], v) == [] + RemoveAll([], v);
    }
  }

  /** Checking one more value in a field that is already filtered can only let more rows through. */
  lemma CheckWidens(f: Filters, k: string, v: string, p: Record)
    requires k in f && f[k] != []
    requires Passes(f, p)
    ensures Passes(Checked(f, k, v), p)
  {
    var g := Checked(f, k, v);
    forall j | j in g && g[j] != [] ensures CellText(p, j) in g[j] {
      if j == k { assert CellText(p, k) in f[k]; }
    }
  }

  /** Clearing the last checked value of a field lifts that field's constraint. */
  lemma UncheckLastLifts(f: Filters, k: string, v: string)
    requires k in f && f[k] == [v]
    ensures Unchecked(f, k, v) == f - {k}
  {
    assert RemoveAll([v], v) == [];
  }

  // ---- The value domain of a filterable column ----

  /** Strictly ascending, hence free of duplicates. */
  predicate StrictlySorted(d: seq<string>) {
    forall i, j :: 0 <= i < j < |d| ==> Less(d[i], d[j])
  }

  /** Adds a value to a strictly ascending list, keeping it strictly ascending. */
  function InsertUnique(x: string, s: seq<string>): (r: seq<string>)
    requires StrictlySorted(s)
    ensures StrictlySorted(r)
    ensures forall y :: y in r <==> y == x || y in s
  {
    if s == [] then [x]
    else if x == s[0] then s
    else if Less(x, s[0]) then
      assert forall j :: 0 < j < |s| ==> Less(x, s[j]) by {
        forall j | 0 < j < |s| ensures Less(x, s[j]) { LessTransitive(x, s[0], s[j]); }
      }
      [x] + s
    else
      LessTotal(x, s[0]);
      var t := InsertUnique(x, s[1..]);
      assert forall y :: y in t ==> Less(s[0], y);
      [s[0]] + t
  }

  /** The value a row contributes to a column's domain, if any: a string other than `'N/A'` and `''`. */
  function DomainValue(p: Record, key: string): Option<string> {
    match GetField(p, key, NA)
    case Str(s) => if s != "N/A" && s != "" then Some(s) else None
    case _ => None
  }

  /** `[...new Set(rows.map(p => getField(p, key)).filter(v => v !== 'N/A' && v !== ''))].sort()`. */
  function Domain(rows: seq<Record>, key: string): (d: seq<string>)
    ensures StrictlySorted(d)
    ensures forall s :: s in d <==> exists p :: p in rows && DomainValue(p, key) == Some(s)
  {
    if rows == [] then []
    else
      var rest := Domain(rows[1..], key);
      assert rows == [rows[0]] + rows[1..];
      match DomainValue(rows[0], key)
      case Some(s) => InsertUnique(s, rest)
      case None => rest
  }

  /** There is only one strictly ascending listing of a set, so the domain is exactly the sorted distinct values. */
  lemma {:induction false} StrictlySortedUnique(a: seq<string>, b: seq<string>)
    requires StrictlySorted(a) && StrictlySorted(b)
    requires forall x :: x in a <==> x in b
    ensures a == b
    decreases |a|
  {
    assert b != [] ==> b[0] in b;
    if a != [] {
      assert a[0] in a;
      assert b != [] by { assert a[0] in b; }
      assert b[0] in b;
      if a[0] != b[0] {
        var i :| 0 <= i < |a| && a[i] == b[0];
        var j :| 0 <= j < |b| && b[j] == a[0];
        assert Less(a[0], a[i]);
        assert Less(b[0], b[j]);
        LessTransitive(a[0], b[0], a[0]);
        LessIrreflexive(a[0]);
      }
      forall x ensures x in a[1..] <==> x in b[1..] {
        if x in a[1..] {
          var i :| 0 <= i < |a[1..]| && a[1..][i] == x;
          assert Less(a[0], a[i + 1]);
          LessIrreflexive(x);
          assert x in b;
        }
        if x in b[1..] {
          var i :| 0 <= i < |b[1..]| && b[1..][i] == x;
          assert Less(b[0], b[i + 1]);
          LessIrreflexive(x);
          assert x in a;
        }
      }
      StrictlySortedUnique(a[1..], b[1..]);
      assert a == [a[0]] + a[1..] && b == [b[0]] + b[1..];
    }
  }

  // ---- Columns ----

  /** One entry of `columnConfig`; the permittee column renders from two fields and has no `dataKey`. */
  datatype Column = Column(id: string, heading: string, visible: bool, alwaysVisible: bool,
                           dataKey: Option<string>, isDate: bool, filterable: bool)

  const InitialColumns: seq<Column> := [
    Column("job_filing_number", "Job Filing #", true, true, Some("job_filing_number"), false, false),
    Column("borough", "Borough", true, false, Some("borough"), false, true),
    Column("house_no", "House No", true, false, Some("house_no"), false, false),
    Column("street_name", "Street Name", true, false, Some("street_name"), false, false),
    Column("work_type", "Work Type", true, false, Some("work_type"), false, true),
    Column("issued_date", "Issuance Date", true, false, Some("issued_date"), true, false),
    Column("permittee", "Permittee", true, false, None, false, false),
    Column("permit_status", "Status", true, false, Some("permit_status"), false, true)
  ]

  /** A column that cannot be hidden is shown. */
  predicate AlwaysVisibleShown(cols: seq<Column>) {
    forall i :: 0 <= i < |cols| && cols[i].alwaysVisible ==> cols[i].visible
  }

  /** The ids of the columns the table shows, in configuration order. */
  function VisibleIds(cols: seq<Column>): (ids: seq<string>)
    ensures |ids| <= |cols|
    ensures forall i :: 0 <= i < |cols| && cols[i].visible ==> cols[i].id in ids
    ensures forall x :: x in ids ==> exists i :: 0 <= i < |cols| && cols[i].visible && cols[i].id == x
  {
    if cols == [] then []
    else (if cols[0].visible then [cols[0].id] else []) + VisibleIds(cols[1..])
  }

  /** The header keeps the configuration order: the visible ids of two runs of columns are those of the first, then those of the second. */
  lemma {:induction false} VisibleIdsConcat(a: seq<Column>, b: seq<Column>)
    ensures VisibleIds(a + b) == VisibleIds(a) + VisibleIds(b)
  {
    if a == [] {
      assert a + b == b;
    } else {
      assert (a + b)[1..] == a[1..] + b;
      VisibleIdsConcat(a[1..], b);
    }
  }

  /** The domain offered for one filterable column. */
  datatype FilterDomain = FilterDomain(key: string, values: seq<string>)

  /** `populateDataFilters`: a domain for each filterable column, in configuration order. */
  function FilterDomains(cols: seq<Column>, rows: seq<Record>): (ds: seq<FilterDomain>)
    ensures |ds| <= |cols|
    ensures forall d :: d in ds ==> StrictlySorted(d.values) && d.values == Domain(rows, d.key)
    ensures forall i :: 0 <= i < |cols| && cols[i].filterable && cols[i].dataKey.Some? ==>
              FilterDomain(cols[i].dataKey.value, Domain(rows, cols[i].dataKey.value)) in ds
  {
    if cols == [] then []
    else
      var c := cols[0];
      var tail := FilterDomains(cols[1..], rows);
      assert forall i :: 1 <= i < |cols| ==> cols[i] == cols[1..][i - 1];
      (if c.filterable && c.dataKey.Some? then [FilterDomain(c.dataKey.value, Domain(rows, c.dataKey.value))] else [])
        + tail
  }

  /**
   * A value the filter panel cannot label: `getField` gives a number, a
   * boolean or an object in a filterable column. Such a value passes the
   * `'N/A'`/`''` test, and building its checkbox id calls `value.replace`,
   * which only strings have.
   */
  predicate Unlabelable(c: Column, p: Record) {
    c.filterable && c.dataKey.Some? && !GetField(p, c.dataKey.value, NA).Str?
  }

  /** Some column cannot label the row's value. */
  predicate RowThrows(cols: seq<Column>, p: Record)
    decreases |cols|
  {
    cols != [] && (Unlabelable(cols[0], p) || RowThrows(cols[1..], p))
  }

  /** Whether `populateDataFilters` throws on these rows. */
  predicate PanelThrows(cols: seq<Column>, rows: seq<Record>)
    decreases |rows|
  {
    rows != [] && (RowThrows(cols, rows[0]) || PanelThrows(cols, rows[1..]))
  }

  lemma {:induction false} RowThrowsSpec(cols: seq<Column>, p: Record)
    ensures RowThrows(cols, p) <==> exists i :: 0 <= i < |cols| && Unlabelable(cols[i], p)
    decreases |cols|
  {
    if cols != [] {
      RowThrowsSpec(cols[1..], p);
      if RowThrows(cols[1..], p) {
        var i :| 0 <= i < |cols[1..]| && Unlabelable(cols[1..][i], p);
        assert Unlabelable(cols[i + 1], p);
      }
      if exists i :: 0 <= i < |cols| && Unlabelable(cols[i], p) {
        var i :| 0 <= i < |cols| && Unlabelable(cols[i], p);
        if i > 0 { assert Unlabelable(cols[1..][i - 1], p); }
      }
    }
  }

  /** The panel throws exactly when some row holds a value some filterable column cannot label. */
  lemma {:induction false} PanelThrowsSpec(cols: seq<Column>, rows: seq<Record>)
    ensures PanelThrows(cols, rows) <==> exists i, j :: 0 <= i < |cols| && 0 <= j < |rows| && Unlabelable(cols[i], rows[j])
    decreases |rows|
  {
    if rows != [] {
      PanelThrowsSpec(cols, rows[1..]);
      RowThrowsSpec(cols, rows[0]);
      if PanelThrows(cols, rows) {
        if RowThrows(cols, rows[0]) {
          var i :| 0 <= i < |cols| && Unlabelable(cols[i], rows[0]);
        } else {
          var i, j :| 0 <= i < |cols| && 0 <= j < |rows[1..]| && Unlabelable(cols[i], rows[1..][j]);
          assert Unlabelable(cols[i], rows[j + 1]);
        }
      }
      if exists i, j :: 0 <= i < |cols| && 0 <= j < |rows| && Unlabelable(cols[i], rows[j]) {
        var i, j :| 0 <= i < |cols| && 0 <= j < |rows| && Unlabelable(cols[i], rows[j]);
        if j > 0 { assert Unlabelable(cols[i], rows[1..][j - 1]); }
      }
    }
  }

  /** When the panel is built without throwing, every value a row holds in a filterable column is offered, except `'N/A'` and `''`. */
  lemma PanelOffersEveryValue(cols: seq<Column>, rows: seq<Record>, i: nat, j: nat)
    requires !PanelThrows(cols, rows)
    requires i < |cols| && cols[i].filterable && cols[i].dataKey.Some? && j < |rows|
    requires GetField(rows[j], cols[i].dataKey.value, NA) != NA
    ensures ToJsString(GetField(rows[j], cols[i].dataKey.value, NA)) in Domain(rows, cols[i].dataKey.value)
  {
    var k := cols[i].dataKey.value;
    var v := GetField(rows[j], k, NA);
    PanelThrowsSpec(cols, rows);
    assert !Unlabelable(cols[i], rows[j]);
    assert DomainValue(rows[j], k) == Some(v.s);
    assert rows[j] in rows;
  }

  /**
   * A permit whose own property in a filterable column (`borough`, say) is a
   * number, a boolean or an object makes the panel throw.
   */
  lemma NonStringValueThrows(cols: seq<Column>, r: Record, i: nat)
    requires i < |cols| && cols[i].filterable && cols[i].dataKey.Some? && '.' !in cols[i].dataKey.value
    requires Lookup(r, cols[i].dataKey.value).Some?
    requires !Lookup(r, cols[i].dataKey.value).value.Str? && Lookup(r, cols[i].dataKey.value).value != Null
    ensures PanelThrows(cols, [r])
  {
    GetFieldSingleKey(r, cols[i].dataKey.value, NA);
    PanelThrowsSpec(cols, [r]);
    assert Unlabelable(cols[i], [r][0]);
  }

  /** Hiding or showing a column never changes the filter domains: they follow `filterable`, not `visible`. */
  lemma {:induction false} FilterDomainsIgnoreVisibility(cols: seq<Column>, i: nat, shown: bool, rows: seq<Record>)
    requires i < |cols|
    ensures FilterDomains(cols[i := cols[i].(visible := shown)], rows) == FilterDomains(cols, rows)
  {
    var cols' := cols[i := cols[i].(visible := shown)];
    if i == 0 {
      assert cols'[1..] == cols[1..];
    } else {
      FilterDomainsIgnoreVisibility(cols[1..], i - 1, shown, rows);
      assert cols'[1..] == cols[1..][i - 1 := cols[1..][i - 1].(visible := shown)];
    }
  }

  function DomainKeys(ds: seq<FilterDomain>): seq<string> {
    if ds == [] then [] else [ds[0].key] + DomainKeys(ds[1..])
  }

  /** The data keys of the filterable columns, in configuration order. */
  function FilterableKeys(cols: seq<Column>): seq<string> {
    if cols == [] then []
    else (if cols[0].filterable && cols[0].dataKey.Some? then [cols[0].dataKey.value] else []) + FilterableKeys(cols[1..])
  }

  /** One domain per filterable column, whatever the rows. */
  lemma {:induction false} FilterDomainsKeys(cols: seq<Column>, rows: seq<Record>)
    ensures DomainKeys(FilterDomains(cols, rows)) == FilterableKeys(cols)
  {
    if cols != [] {
      FilterDomainsKeys(cols[1..], rows);
      var c := cols[0];
      var head := if c.filterable && c.dataKey.Some? then [FilterDomain(c.dataKey.value, Domain(rows, c.dataKey.value))] else [];
      var tail := FilterDomains(cols[1..], rows);
      DomainKeysConcat(head, tail);
    }
  }

  lemma {:induction false} DomainKeysConcat(a: seq<FilterDomain>, b: seq<FilterDomain>)
    ensures DomainKeys(a + b) == DomainKeys(a) + DomainKeys(b)
  {
    if a == [] {
      assert a + b == b;
    } else {
      assert (a + b)[1..] == a[1..] + b;
      DomainKeysConcat(a[1..], b);
    }
  }

  lemma InitialColumnsShown()
    ensures AlwaysVisibleShown(InitialColumns)
  {
  }

  lemma InitialFilterableKeys()
    ensures FilterableKeys(InitialColumns) == ["borough", "work_type", "permit_status"]
  {
    var c := InitialColumns;
    assert c[7..] == [c[7]];
    assert FilterableKeys(c[7..]) == ["permit_status"];
    assert FilterableKeys(c[6..]) == ["permit_status"] by { assert c[6..][1..] == c[7..]; }
    assert FilterableKeys(c[5..]) == ["permit_status"] by { assert c[5..][1..] == c[6..]; }
    assert FilterableKeys(c[4..]) == ["work_type", "permit_status"] by { assert c[4..][1..] == c[5..]; }
    assert FilterableKeys(c[3..]) == ["work_type", "permit_status"] by { assert c[3..][1..] == c[4..]; }
    assert FilterableKeys(c[2..]) == ["work_type", "permit_status"] by { assert c[2..][1..] == c[3..]; }
    assert FilterableKeys(c[1..]) == ["borough", "work_type", "permit_status"] by { assert c[1..][1..] == c[2..]; }
  }

  /** The initial configuration filters borough, work type and status. */
  lemma InitialColumnsFacts(rows: seq<Record>)
    ensures DomainKeys(FilterDomains(InitialColumns, rows)) == ["borough", "work_type", "permit_status"]
  {
    FilterDomainsKeys(InitialColumns, rows);
    InitialFilterableKeys();
  }
}
