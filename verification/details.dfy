/**
 * The permit details panel: which values can start a parameter search, the
 * order in which a record's fields are listed, the text shown for each value
 * and the external links offered for the permit.
 */
module Details {
  import opened Wrappers
  import opened JsString
  import opened JsNumber
  import opened Permits
  import opened Seqs
  import UriComponent

  /** Fields never offered as a search pivot: identifiers, free text, dates and the house number. */
  const NonSearchableKeys: seq<string> := [
    "job_filing_number", "bin", "block", "lot",
    "job_description",
    "issued_date", "expired_date", "approved_date",
    "house_no"
  ]

  /** The longest value, in UTF-16 code units, that can be a pivot. */
  const MaxPivotLength := 75

  /** `isSearchableParameter(key, value)`: whether the value in the panel starts a parameter search. */
  function IsSearchableParameter(key: string, value: Value): (r: bool)
    ensures r ==> value != NA && value != Null && Trim(ToJsString(value)) != []
    ensures r ==> key !in NonSearchableKeys
    ensures r ==> Utf16Length(ToJsString(value)) <= MaxPivotLength
    ensures !r ==> value == NA || value == Null || AllSpace(ToJsString(value)) ||
                   key in NonSearchableKeys || Utf16Length(ToJsString(value)) > MaxPivotLength
  {
    TrimEmptyIffBlank(ToJsString(value));
    if value == NA || value == Null || Trim(ToJsString(value)) == [] then false
    else if key in NonSearchableKeys then false
    else if Utf16Length(ToJsString(value)) > MaxPivotLength then false
    else true
  }

  /** The text shown for a raw value: `'N/A'` for `undefined`, `null` and blank text, `String(v)` otherwise. */
  function DisplayValue(raw: Option<Value>): (d: string)
    ensures d != "N/A" ==> raw.Some? && d == ToJsString(raw.value) && !AllSpace(d)
    ensures raw.Some? && raw.value != Null && !AllSpace(ToJsString(raw.value)) ==> d == ToJsString(raw.value)
    ensures raw.None? || raw.value == Null || AllSpace(ToJsString(raw.value)) ==> d == "N/A"
  {
    if raw.None? || raw.value == Null then "N/A"
    else
      TrimEmptyIffBlank(ToJsString(raw.value));
      if Trim(ToJsString(raw.value)) == [] then "N/A"
    else ToJsString(raw.value)
  }

  /** Only the string `'N/A'` itself prints as `N/A`. */
  lemma PrintsAsNA(v: Value)
    ensures ToJsString(v) == "N/A" <==> v == NA
  {
    var s := ToJsString(v);
    if v.Num? {
      assert IsDecimalDigit(s[0]) || s[0] == '-';
    } else if v.Bool? {
      assert s[0] == 't' || s[0] == 'f';
    } else if v.Null? {
      assert s[0] == 'n';
    } else if v.Obj? {
      assert s[0] == '[';
    }
  }

  /** A value that can be a pivot is shown as itself, never as the `'N/A'` placeholder. */
  lemma PivotIsShownAsItself(key: string, v: Value)
    requires IsSearchableParameter(key, v)
    ensures DisplayValue(Some(v)) == ToJsString(v)
    ensures DisplayValue(Some(v)) != "N/A"
  {
    TrimEmptyIffBlank(ToJsString(v));
    if ToJsString(v) == "N/A" { PrintsAsNA(v); }
  }

  /** Text that starts like `YYYY-MM-DD`. */
  predicate LooksLikeIsoDate(s: string) {
    |s| >= 10 &&
    IsDecimalDigit(s[0]) && IsDecimalDigit(s[1]) && IsDecimalDigit(s[2]) && IsDecimalDigit(s[3]) && s[4] == '-' &&
    IsDecimalDigit(s[5]) && IsDecimalDigit(s[6]) && s[7] == '-' && IsDecimalDigit(s[8]) && IsDecimalDigit(s[9])
  }

  /** What the value cell shows: the display text, or a date that is rendered as a long US-English date. */
  datatype Shown = Plain(text: string) | LongDate(iso: string)

  function ShownValue(key: string, raw: Option<Value>): (sv: Shown)
    ensures sv.LongDate? ==> Contains(key, "date") && LooksLikeIsoDate(sv.iso) && sv.iso == DisplayValue(raw)
    ensures sv.Plain? ==> sv.text == DisplayValue(raw)
    ensures DisplayValue(raw) == "N/A" ==> sv == Plain("N/A")
    ensures Contains(key, "date") && DisplayValue(raw) != "N/A" && LooksLikeIsoDate(DisplayValue(raw)) ==>
              sv == LongDate(DisplayValue(raw))
  {
    var d := DisplayValue(raw);
    if Contains(key, "date") && d != "N/A" && LooksLikeIsoDate(d) then LongDate(d) else Plain(d)
  }

  /** An ISO date under `issued_date` is rendered as a date; the same text under `house_no` is shown as it is. */
  lemma DateKeysOnly(iso: string)
    requires LooksLikeIsoDate(iso)
    ensures ShownValue("issued_date", Some(Str(iso))) == LongDate(iso)
    ensures ShownValue("house_no", Some(Str(iso))) == Plain(iso)
  {
    IsoDateDisplayed(iso);
    KeyMentionsDate();
  }

  lemma KeyMentionsDate()
    ensures Contains("issued_date", "date")
    ensures !Contains("house_no", "date")
  {
    var issued := "issued_date";
    assert OccursAt(issued, "date", 7) by { assert issued[7..11] == "date"; }
    ContainsAt(issued, "date", 7);
    var house := "house_no";
    assert 'd' !in house;
    ContainsNeedsChar(house, "date", 0);
  }

  lemma IsoDateDisplayed(iso: string)
    requires LooksLikeIsoDate(iso)
    ensures DisplayValue(Some(Str(iso))) == iso != "N/A"
  {
    assert IsDecimalDigit(iso[0]);
    assert !AllSpace(iso) by { assert !IsJsSpace(iso[0]); }
  }

  /** One row of the panel: the field, its heading with underscores shown as spaces, the value and whether it is a pivot. */
  datatype DetailItem = DetailItem(key: string, heading: string, shown: Shown, pivot: bool)

  function Item(r: Record, key: string): DetailItem {
    var raw := Lookup(r, key);
    DetailItem(key, UnderscoresToSpaces(key), ShownValue(key, raw), raw.Some? && IsSearchableParameter(key, raw.value))
  }

  function ItemsFor(r: Record, keys: seq<string>): (items: seq<DetailItem>)
    ensures |items| == |keys|
    ensures forall i :: 0 <= i < |keys| ==> items[i] == Item(r, keys[i])
  {
    seq(|keys|, i requires 0 <= i < |keys| => Item(r, keys[i]))
  }

  /** The fields listed first, in this order, when the permit has them. */
  const ImportantKeys: seq<string> := [
    "job_filing_number", "borough", "house_no", "street_name", "block", "lot", "bin",
    "work_type", "job_description", "permit_status", "issued_date", "expired_date",
    "permittee_s_first_name", "permittee_s_last_name", "permittee_s_business_name", "permittee_s_license_type",
    "owner_name", "owner_business_name"
  ]

  function Present(ks: seq<string>): string -> bool {
    k => k in ks
  }

  function Unlisted(priority: seq<string>): string -> bool {
    k => k !in priority
  }

  /** The fields of `priority` among the object's keys `ks`, in that order, then the other keys in property order. */
  function KeyOrder(priority: seq<string>, ks: seq<string>): seq<string> {
    Filter(Present(ks), priority) + Filter(Unlisted(priority), ks)
  }

  /** The panel's field order. */
  function DetailKeyOrder(r: Record): seq<string> {
    KeyOrder(ImportantKeys, Keys(r))
  }

  /** Every element occurs at most once. */
  ghost predicate NoDuplicates(s: seq<string>) {
    forall x :: multiset(s)[x] <= 1
  }

  ghost predicate PairwiseDistinct(s: seq<string>) {
    forall i, j :: 0 <= i < j < |s| ==> s[i] != s[j]
  }

  lemma {:induction false} PairwiseDistinctNoDuplicates(s: seq<string>)
    requires PairwiseDistinct(s)
    ensures NoDuplicates(s)
  {
    if s != [] {
      PairwiseDistinctNoDuplicates(s[1..]);
      assert s == [s[0]] + s[1..];
      assert s[0] !in s[1..] by {
        forall i | 0 <= i < |s[1..]| ensures s[1..][i] != s[0] { assert s[1..][i] == s[i + 1]; }
      }
    }
  }

  lemma ImportantKeysDistinct()
    ensures NoDuplicates(ImportantKeys)
  {
    assert PairwiseDistinct(ImportantKeys);
    PairwiseDistinctNoDuplicates(ImportantKeys);
  }

  /** With distinct keys (as an object's are), every key is listed exactly once and nothing else is. */
  lemma KeysExactlyOnce(priority: seq<string>, ks: seq<string>)
    requires NoDuplicates(priority) && NoDuplicates(ks)
    ensures NoDuplicates(KeyOrder(priority, ks))
    ensures forall k :: k in KeyOrder(priority, ks) <==> k in ks
  {
    var a, b := Filter(Present(ks), priority), Filter(Unlisted(priority), ks);
    FilterMultiset(Present(ks), priority);
    FilterMultiset(Unlisted(priority), ks);
    assert multiset(a + b) == multiset(a) + multiset(b);
    forall x ensures multiset(a + b)[x] <= 1 && (x in a + b <==> x in ks) {
      assert x in priority <==> multiset(priority)[x] > 0;
      assert x in ks <==> multiset(ks)[x] > 0;
      assert x in a <==> multiset(a)[x] > 0;
      assert x in b <==> multiset(b)[x] > 0;
      assert x in a + b <==> multiset(a + b)[x] > 0;
    }
  }

  /** The panel lists each field of a permit exactly once. */
  lemma DetailKeysExactlyOnce(r: Record)
    requires NoDuplicates(Keys(r))
    ensures NoDuplicates(DetailKeyOrder(r))
    ensures forall k :: k in DetailKeyOrder(r) <==> k in Keys(r)
  {
    ImportantKeysDistinct();
    KeysExactlyOnce(ImportantKeys, Keys(r));
  }

  /** No field of `priority` is listed after a field outside it. */
  lemma PriorityFirst(priority: seq<string>, ks: seq<string>)
    ensures forall i, j :: 0 <= i < j < |KeyOrder(priority, ks)| && KeyOrder(priority, ks)[j] in priority ==>
              KeyOrder(priority, ks)[i] in priority
  {
    var a, b := Filter(Present(ks), priority), Filter(Unlisted(priority), ks);
    var order := a + b;
    forall i, j | 0 <= i < j < |order| && order[j] in priority ensures order[i] in priority {
      assert j < |a|;
      assert order[i] == a[i];
      FilterMultiset(Present(ks), priority);
      assert multiset(a)[a[i]] > 0;
    }
  }

  /**
   * The listing loops of the details panel: the fields of `priority` the
   * permit has, noting each in a `displayedKeys` set, then every own field
   * not in the set.
   */
  method ListKeys(priority: seq<string>, ks: seq<string>) returns (order: seq<string>)
    ensures order == KeyOrder(priority, ks)
  {
    var displayed: set<string> := {};
    order := [];
    for i := 0 to |priority|
      invariant order == Filter(Present(ks), priority[..i])
      invariant forall k :: k in displayed <==> k in priority[..i] && k in ks
    {
      var key := priority[i];
      assert priority[..i + 1] == priority[..i] + [key];
      FilterSnoc(Present(ks), priority[..i], key);
      if key in ks {
        displayed := displayed + {key};
        order := order + [key];
      }
    }
    assert priority[..|priority|] == priority;
    ghost var head := order;
    for j := 0 to |ks|
      invariant order == head + Filter(Unlisted(priority), ks[..j])
    {
      var key := ks[j];
      assert ks[..j + 1] == ks[..j] + [key];
      FilterSnoc(Unlisted(priority), ks[..j], key);
      assert key in ks;
      if key !in displayed {
        order := order + [key];
      }
    }
    assert ks[..|ks|] == ks;
  }

  /** `openDetailsPanel`'s rows, important fields first. */
  method OpenDetails(r: Record) returns (items: seq<DetailItem>)
    ensures items == ItemsFor(r, DetailKeyOrder(r))
  {
    var keys := ListKeys(ImportantKeys, Keys(r));
    items := ItemsFor(r, keys);
  }

  /** The external links, by the site and the search they open, with the identifiers they show. */
  datatype Link =
    | DobNowJob(job: string)
    | BisJob(job: string)
    | DobNowAddress(bin: string)
    | BisProperty(bin: string)
    | ZolaLot(code: string, block: string, lot: string, borough: string)
    | ZolaByBin(bin: string)
    | ZolaByAddress

  predicate IsZola(l: Link) {
    l.ZolaLot? || l.ZolaByBin? || l.ZolaByAddress?
  }

  const ZolaSite := "https://zola.planning.nyc.gov/"
  const BisJobsQuery := "https://a810-bisweb.nyc.gov/bisweb/JobsQueryByNumberServlet?passjobnumber="
  const BisJobsTail := "&allbin=&allcount=1"
  const BisPropertyQuery := "https://a810-bisweb.nyc.gov/bisweb/PropertyProfileOverviewServlet?bin="
  const BisPropertyTail := "&bbl=&requestid=0"

  /** ZoLa's page for the tax lot with this borough code, block and lot. */
  function LotUrl(code: string, block: string, lot: string): (url: string)
    ensures IsPrefix(ZolaSite, url)
  {
    var url := ZolaSite + "lot/" + code + "/" + block + "/" + lot;
    assert url[..|ZolaSite|] == ZolaSite;
    url
  }

  /** Where a link points; identifiers in BIS queries are passed through `encodeURIComponent`. */
  function Url(l: Link): (u: string)
    ensures IsZola(l) ==> IsPrefix(ZolaSite, u)
  {
    match l
    case DobNowJob(_) => "https://a810-dobnow.nyc.gov/publish/Index.html#!/search?tab=Job"
    case BisJob(job) => BisJobsQuery + UriComponent.Encode(job) + BisJobsTail
    case DobNowAddress(_) => "https://a810-dobnow.nyc.gov/publish/Index.html#!/search?tab=Address"
    case BisProperty(bin) => BisPropertyQuery + UriComponent.Encode(bin) + BisPropertyTail
    case ZolaLot(code, block, lot, _) => LotUrl(code, block, lot)
    case _ =>
      assert ZolaSite[..|ZolaSite|] == ZolaSite;
      ZolaSite
  }

  /** The link's caption. */
  function Caption(l: Link): string {
    match l
    case DobNowJob(job) => "DOB NOW Public Portal (Search Job #: " + job + ")"
    case BisJob(job) => "BIS: Job Details (Job #: " + job + ")"
    case DobNowAddress(bin) => "DOB NOW Public Portal (Search BIN: " + bin + ")"
    case BisProperty(bin) => "BIS: Property Profile (BIN: " + bin + ")"
    case ZolaLot(_, block, lot, borough) => "ZoLa: Zoning & Land Use (Lot: " + borough + " B:" + block + " L:" + lot + ")"
    case ZolaByBin(bin) => "ZoLa: Zoning & Land Use (Search by BIN: " + bin + " or address)"
    case ZolaByAddress => "ZoLa: Zoning & Land Use (Search by address)"
  }

  /**
   * The identifier in a BIS link is one query value: it holds no `&`, so it
   * ends where the fixed tail starts, and decoding it gives back the
   * identifier's UTF-8 bytes.
   */
  lemma BisQueryCarriesIdentifier(l: Link)
    requires l.BisJob? || l.BisProperty?
    ensures exists v :: '&' !in v && UriComponent.DecodeBytes(v) == Some(UriComponent.Utf8(if l.BisJob? then l.job else l.bin)) &&
                        Url(l) == (if l.BisJob? then BisJobsQuery + v + BisJobsTail else BisPropertyQuery + v + BisPropertyTail)
  {
    var id := if l.BisJob? then l.job else l.bin;
    var v := UriComponent.Encode(id);
    UriComponent.EncodeHasNoDelimiters(id);
    UriComponent.DecodeEncode(id);
    assert Url(l) == (if l.BisJob? then BisJobsQuery + v + BisJobsTail else BisPropertyQuery + v + BisPropertyTail);
  }

  /** A property that is truthy and not the `'N/A'` placeholder. */
  predicate Usable(o: Option<Value>) {
    Truthy(o) && o != Some(NA)
  }

  /** The two job links, when the permit has a filing number. */
  function JobLinks(r: Record): (links: seq<Link>)
    ensures |links| == if Usable(Lookup(r, "job_filing_number")) then 2 else 0
    ensures forall l :: l in links ==> !IsZola(l)
    ensures forall l :: l in links ==> (l.DobNowJob? || l.BisJob?) && l.job == ToJsString(Lookup(r, "job_filing_number").value)
    ensures links != [] ==> links[0].DobNowJob? && links[1].BisJob?
  {
    var job := Lookup(r, "job_filing_number");
    if Usable(job) then [DobNowJob(ToJsString(job.value)), BisJob(ToJsString(job.value))] else []
  }

  /** The two building links, when the permit has a BIN. */
  function BinLinks(r: Record): (links: seq<Link>)
    ensures |links| == if Usable(Lookup(r, "bin")) then 2 else 0
    ensures forall l :: l in links ==> !IsZola(l)
    ensures forall l :: l in links ==> (l.DobNowAddress? || l.BisProperty?) && l.bin == ToJsString(Lookup(r, "bin").value)
    ensures links != [] ==> links[0].DobNowAddress? && links[1].BisProperty?
  {
    var bin := Lookup(r, "bin");
    if Usable(bin) then [DobNowAddress(ToJsString(bin.value)), BisProperty(ToJsString(bin.value))] else []
  }

  /** The ZoLa link: the tax lot when borough, block and lot are known, else a search by BIN or by address. */
  function ZolaLink(r: Record): (l: Link)
    ensures IsZola(l)
  {
    var borough, block, lot, bin := Lookup(r, "borough"), Lookup(r, "block"), Lookup(r, "lot"), Lookup(r, "bin");
    var code := BoroughCode(borough);
    if code.Some? && Usable(block) && Usable(lot) then
      ZolaLot(code.value, ToJsString(block.value), ToJsString(lot.value), ToJsString(borough.value))
    else if Usable(bin) then ZolaByBin(ToJsString(bin.value))
    else ZolaByAddress
  }

  /**
   * Which ZoLa page the panel links to: the tax lot's own page exactly when
   * the borough has a code and block and lot are usable, else the ZoLa home
   * page, captioned as a search by BIN when there is one.
   */
  lemma ZolaLinkChoice(r: Record)
    ensures ZolaLink(r).ZolaLot? <==>
              BoroughCode(Lookup(r, "borough")).Some? && Usable(Lookup(r, "block")) && Usable(Lookup(r, "lot"))
    ensures ZolaLink(r).ZolaLot? ==>
              ZolaLink(r) == ZolaLot(BoroughCode(Lookup(r, "borough")).value, ToJsString(Lookup(r, "block").value),
                                     ToJsString(Lookup(r, "lot").value), ToJsString(Lookup(r, "borough").value))
    ensures ZolaLink(r).ZolaByBin? <==> !ZolaLink(r).ZolaLot? && Usable(Lookup(r, "bin"))
  {
  }

  /** The panel's links, in the order they are added: job links, building links, then one ZoLa link. */
  function ExternalLinks(r: Record): (links: seq<Link>)
    ensures |links| == 1 + (if Usable(Lookup(r, "job_filing_number")) then 2 else 0) + (if Usable(Lookup(r, "bin")) then 2 else 0)
    ensures links[|links| - 1] == ZolaLink(r)
    ensures forall i :: 0 <= i < |links| - 1 ==> !IsZola(links[i])
    ensures links[..|JobLinks(r)|] == JobLinks(r) && links[|JobLinks(r)|..|links| - 1] == BinLinks(r)
  {
    var job, bin := JobLinks(r), BinLinks(r);
    ThreeParts(job, bin, ZolaLink(r));
    job + bin + [ZolaLink(r)]
  }

  /** The notice shown instead of links when none was added. */
  function LinksNotice(links: seq<Link>): Option<string> {
    if |links| == 0 then Some("No specific identifiers (Job # or BIN) available for direct linking to all portals.")
    else None
  }

  /** A ZoLa link is always added, so the notice never appears. */
  lemma NoticeNeverShown(r: Record)
    ensures LinksNotice(ExternalLinks(r)) == None
  {
  }

  lemma BrooklynIsThree()
    ensures BoroughCode(Some(Str("brooklyn"))) == Some("3")
  {
    assert Upper("brooklyn") == "BROOKLYN";
  }

  lemma BlockAndLotUsable()
    ensures Usable(Some(Str("123"))) && Usable(Some(Num(45)))
  {
  }

  lemma FortyFive()
    ensures ToJsString(Num(45)) == "45"
  {
    assert Digits(4) == "4";
  }

  /** The page of Brooklyn (3) block 123 lot 45. */
  lemma LotUrlExample()
    ensures Url(ZolaLot("3", "123", "45", "brooklyn")) == "https://zola.planning.nyc.gov/lot/3/123/45"
  {
  }

  /** The ZoLa link of a permit in "brooklyn", block "123", numeric lot 45. */
  lemma BrooklynLotLink(r: Record)
    requires Lookup(r, "borough") == Some(Str("brooklyn"))
    requires Lookup(r, "block") == Some(Str("123")) && Lookup(r, "lot") == Some(Num(45))
    ensures ZolaLink(r) == ZolaLot("3", "123", "45", "brooklyn")
  {
    BrooklynIsThree();
    BlockAndLotUsable();
    FortyFive();
  }

  /**
   * A permit in "brooklyn" (any letter case is accepted), block "123", numeric
   * lot 45 and neither filing number nor BIN gets exactly one link: ZoLa's
   * page for lot 3/123/45.
   */
  lemma ZolaLotForBrooklyn(r: Record)
    requires Lookup(r, "borough") == Some(Str("brooklyn"))
    requires Lookup(r, "block") == Some(Str("123")) && Lookup(r, "lot") == Some(Num(45))
    requires Lookup(r, "job_filing_number").None? && Lookup(r, "bin").None?
    ensures ExternalLinks(r) == [ZolaLot("3", "123", "45", "brooklyn")]
  {
    BrooklynLotLink(r);
    assert JobLinks(r) == [] && BinLinks(r) == [];
    assert ExternalLinks(r) == [ZolaLink(r)];
  }
}
