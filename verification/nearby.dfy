/**
 * The nearby fallback of `searchNearby`: the candidate house numbers around
 * the one searched, the concatenation of what each candidate's query returned
 * (a failed query contributing nothing), and the first-wins de-duplication by
 * `job_filing_number`. Query outcomes are inputs.
 */
module Nearby {
  import opened Wrappers
  import opened JsNumber
  import opened Permits

  /** What one query to the dataset produced: the parsed JSON array, or an error with its message. */
  datatype FetchOutcome = Ok(records: seq<Record>) | Failed(message: string)

  /** `response.ok ? response.json() : []` with `.catch(() => [])`: a failed query contributes an empty list. */
  function Received(o: FetchOutcome): seq<Record> {
    if o.Ok? then o.records else []
  }

  const SearchRadius: int := 2

  /** `n + i` for `i` from -2 to 2, skipping 0 and every house number that is not positive. */
  function CandidateHouses(n: int): (cs: seq<int>)
    ensures forall c :: c in cs <==> n - SearchRadius <= c <= n + SearchRadius && c != n && c > 0
    ensures forall i, j :: 0 <= i < j < |cs| ==> cs[i] < cs[j]
  {
    (if n - 2 > 0 then [n - 2] else []) + (if n - 1 > 0 then [n - 1] else []) +
    (if n + 1 > 0 then [n + 1] else []) + (if n + 2 > 0 then [n + 2] else [])
  }

  /** The candidate loop of `searchNearby`: one query per surviving house number, in loop order. */
  method Candidates(n: int) returns (cs: seq<int>)
    ensures cs == CandidateHouses(n)
  {
    cs := [];
    var i := -SearchRadius;
    while i <= SearchRadius
      invariant -SearchRadius <= i <= SearchRadius + 1
      invariant cs == CandidatesBelow(n, i)
    {
      if i != 0 {
        var house := n + i;
        if house > 0 {
          cs := cs + [house];
        }
      }
      i := i + 1;
    }
  }

  /** The candidates the loop has produced before offset `i`. */
  function CandidatesBelow(n: int, i: int): seq<int>
    requires -SearchRadius <= i <= SearchRadius + 1
    decreases i + SearchRadius
  {
    if i == -SearchRadius then []
    else CandidatesBelow(n, i - 1) + (if i - 1 != 0 && n + i - 1 > 0 then [n + i - 1] else [])
  }

  /** The candidates of a house number as typed: none when `parseInt` finds no number. */
  function CandidatesFor(house: string): seq<int> {
    match ParseInt(house)
    case None => []
    case Some(n) => CandidateHouses(n)
  }

  /** All records received for the candidates, concatenated in candidate order. */
  function Gathered(cs: seq<int>, fetch: int -> FetchOutcome): (rows: seq<Record>)
    ensures forall p :: p in rows ==> exists c :: c in cs && p in Received(fetch(c))
    ensures forall c, p :: c in cs && p in Received(fetch(c)) ==> p in rows
  {
    if cs == [] then []
    else
      var here := Received(fetch(cs[0]));
      var rest := Gathered(cs[1..], fetch);
      assert forall p :: p in here + rest ==> exists c :: c in cs && p in Received(fetch(c)) by {
        forall p | p in here + rest ensures exists c :: c in cs && p in Received(fetch(c)) {
          if p in here {
            var c := cs[0];
            assert c in cs;
            assert p in Received(fetch(c));
          } else {
            assert p in rest;
            var c :| c in cs[1..] && p in Received(fetch(c));
            assert c in cs;
          }
        }
      }
      assert forall c, p :: c in cs && p in Received(fetch(c)) ==> p in here + rest by {
        forall c, p | c in cs && p in Received(fetch(c)) ensures p in here + rest {
          if c != cs[0] {
            assert c in cs[1..];
          }
        }
      }
      here + rest
  }

  /** `resultsFromPromises.forEach(a => accumulator.push(...a))`. */
  method Accumulate(cs: seq<int>, fetch: int -> FetchOutcome) returns (acc: seq<Record>)
    ensures acc == Gathered(cs, fetch)
  {
    acc := [];
    var k := 0;
    while k < |cs|
      invariant 0 <= k <= |cs|
      invariant acc + Gathered(cs[k..], fetch) == Gathered(cs, fetch)
    {
      assert cs[k..][1..] == cs[k + 1..];
      acc := acc + Received(fetch(cs[k]));
      k := k + 1;
    }
  }

  /** `permit.job_filing_number`, read directly. */
  function FilingNumber(p: Record): Option<Value> {
    Lookup(p, "job_filing_number")
  }

  /** Filing numbers pairwise distinct. */
  predicate DistinctFilingNumbers(rows: seq<Record>) {
    forall i, j :: 0 <= i < j < |rows| ==> FilingNumber(rows[i]) != FilingNumber(rows[j])
  }

  /** The record at `i` is the first one carrying its filing number. */
  predicate FirstWithItsNumber(rows: seq<Record>, i: int)
    requires 0 <= i < |rows|
  {
    forall j :: 0 <= j < i ==> FilingNumber(rows[j]) != FilingNumber(rows[i])
  }

  /**
   * The `Map`-based de-duplication: records with a truthy filing number not
   * seen before are kept, in order; records without one are dropped.
   */
  function FirstByFiling(rows: seq<Record>, seen: set<Value>): (out: seq<Record>)
    ensures forall q :: q in out ==> q in rows && Truthy(FilingNumber(q)) && FilingNumber(q).value !in seen
    ensures DistinctFilingNumbers(out)
  {
    if rows == [] then []
    else
      var id := FilingNumber(rows[0]);
      if Truthy(id) && id.value !in seen then
        var rest := FirstByFiling(rows[1..], seen + {id.value});
        [rows[0]] + rest
      else FirstByFiling(rows[1..], seen)
  }

  /** Dropping the head keeps a later record first with its filing number. */
  lemma FirstInTail(rows: seq<Record>, i: int)
    requires 0 < i < |rows| && FirstWithItsNumber(rows, i)
    ensures FirstWithItsNumber(rows[1..], i - 1)
  {
    forall j | 0 <= j < i - 1 ensures FilingNumber(rows[1..][j]) != FilingNumber(rows[1..][i - 1]) {
      assert rows[1..][j] == rows[j + 1];
    }
  }

  /** A record first with its filing number after the head, and numbered differently from the head, is first overall. */
  lemma FirstInWhole(rows: seq<Record>, i: int)
    requires 0 < i < |rows| && FirstWithItsNumber(rows[1..], i - 1)
    requires FilingNumber(rows[0]) != FilingNumber(rows[i])
    ensures FirstWithItsNumber(rows, i)
  {
    forall j | 0 <= j < i ensures FilingNumber(rows[j]) != FilingNumber(rows[i]) {
      if j > 0 { assert rows[j] == rows[1..][j - 1]; }
    }
  }

  /** Every filing number that occurs (and was not already seen) is kept, by its first record. */
  lemma {:induction false} FirstByFilingKeepsFirst(rows: seq<Record>, seen: set<Value>, i: int)
    requires 0 <= i < |rows| && FirstWithItsNumber(rows, i)
    requires Truthy(FilingNumber(rows[i])) && FilingNumber(rows[i]).value !in seen
    ensures rows[i] in FirstByFiling(rows, seen)
    decreases |rows|
  {
    var id := FilingNumber(rows[0]);
    if i > 0 {
      var seen' := if Truthy(id) && id.value !in seen then seen + {id.value} else seen;
      assert FilingNumber(rows[0]) != FilingNumber(rows[i]);
      FirstInTail(rows, i);
      FirstByFilingKeepsFirst(rows[1..], seen', i - 1);
    }
  }

  /** A kept record is the first one carrying its filing number: the first occurrence wins. */
  lemma {:induction false} FirstByFilingFirstWins(rows: seq<Record>, seen: set<Value>, q: Record)
    requires q in FirstByFiling(rows, seen)
    ensures exists i :: 0 <= i < |rows| && rows[i] == q && FirstWithItsNumber(rows, i)
    decreases |rows|
  {
    var id := FilingNumber(rows[0]);
    if Truthy(id) && id.value !in seen && q == rows[0] {
      assert FirstWithItsNumber(rows, 0);
    } else {
      var seen' := if Truthy(id) && id.value !in seen then seen + {id.value} else seen;
      assert q in FirstByFiling(rows[1..], seen');
      FirstByFilingFirstWins(rows[1..], seen', q);
      var i :| 0 <= i < |rows[1..]| && rows[1..][i] == q && FirstWithItsNumber(rows[1..], i);
      assert FilingNumber(q).value !in seen';
      assert rows[i + 1] == q && FilingNumber(rows[0]) != FilingNumber(q);
      FirstInWhole(rows, i + 1);
    }
  }

  /** The loop over the accumulated records with `uniqueNearbyPermitsMap`, returning the map's values in insertion order. */
  method DedupeByFilingNumber(rows: seq<Record>) returns (out: seq<Record>)
    ensures out == FirstByFiling(rows, {})
  {
    out := [];
    var seen: set<Value> := {};
    var k := 0;
    while k < |rows|
      invariant 0 <= k <= |rows|
      invariant out + FirstByFiling(rows[k..], seen) == FirstByFiling(rows, {})
    {
      assert rows[k..][1..] == rows[k + 1..];
      var id := FilingNumber(rows[k]);
      if Truthy(id) && id.value !in seen {
        out := out + [rows[k]];
        seen := seen + {id.value};
      }
      k := k + 1;
    }
  }

  /** The records of the nearby frame: de-duplicated candidates' records, in candidate order. */
  function NearbyResults(house: string, fetch: int -> FetchOutcome): (rows: seq<Record>)
    ensures DistinctFilingNumbers(rows)
    ensures forall q :: q in rows ==> Truthy(FilingNumber(q))
    ensures ParseInt(house).None? ==> rows == []
  {
    FirstByFiling(Gathered(CandidatesFor(house), fetch), {})
  }

  /** A candidate whose query failed contributes nothing: the result is as if it had returned an empty list. */
  lemma {:induction false} FailedCandidateContributesNothing(cs: seq<int>, fetch: int -> FetchOutcome, c: int)
    requires fetch(c).Failed?
    ensures Gathered(cs, fetch) == Gathered(cs, h => if h == c then Ok([]) else fetch(h))
  {
    if cs != [] { FailedCandidateContributesNothing(cs[1..], fetch, c); }
  }

  lemma ParseHundred()
    ensures ParseInt("100") == Some(100)
  {
    assert Digits(100) == "100" by {
      assert Digits(1) == "1";
      assert Digits(10) == Digits(1) + [DigitChar(0)];
    }
    ParseIntOfIntToString(100, "");
    assert IntToString(100) + "" == "100";
  }

  lemma GatheredFour(cs: seq<int>, fetch: int -> FetchOutcome)
    requires |cs| == 4
    ensures Gathered(cs, fetch) == Received(fetch(cs[0])) + Received(fetch(cs[1])) + Received(fetch(cs[2])) + Received(fetch(cs[3]))
  {
    var t1, t2, t3 := cs[1..], cs[2..], cs[3..];
    assert t1[1..] == t2 && t2[1..] == t3 && t3[1..] == [];
    assert Gathered(t3, fetch) == Received(fetch(cs[3]));
    assert Gathered(t2, fetch) == Received(fetch(cs[2])) + Gathered(t3, fetch);
    assert Gathered(t1, fetch) == Received(fetch(cs[1])) + Gathered(t2, fetch);
  }

  lemma DedupeSameNumber(a: Record, b: Record)
    requires Truthy(FilingNumber(a)) && FilingNumber(a) == FilingNumber(b)
    ensures FirstByFiling([a, b], {}) == [a]
  {
    var id := FilingNumber(a).value;
    assert [a, b][1..] == [b];
    assert [b][1..] == [];
    assert FirstByFiling([b], {id}) == FirstByFiling([], {id});
    assert FirstByFiling([a, b], {}) == [a] + FirstByFiling([b], {} + {id});
  }

  function ScenarioFetch(at99: Record, at101: Record, h: int): FetchOutcome {
    if h == 99 then Ok([at99]) else if h == 101 then Ok([at101]) else Ok([])
  }

  lemma CandidatesForHundred(house: string)
    requires ParseInt(house) == Some(100)
    ensures CandidatesFor(house) == [98, 99, 101, 102]
  {
    assert CandidateHouses(100) == [98] + [99] + [101] + [102];
  }

  lemma ScenarioGathered(at99: Record, at101: Record)
    ensures Gathered([98, 99, 101, 102], h => ScenarioFetch(at99, at101, h)) == [at99, at101]
  {
    GatheredFour([98, 99, 101, 102], h => ScenarioFetch(at99, at101, h));
  }

  /**
   * Nothing at 100 MAIN ST: the candidates are 98, 99, 101 and 102; 99 and
   * 101 each return a record with filing number J1, so the frame holds one
   * record, the one found at 99.
   */
  lemma DuplicateAcrossNeighbours(at99: Record, at101: Record)
    requires at99 == [Prop("job_filing_number", Str("J1")), Prop("house_no", Str("99"))]
    requires at101 == [Prop("job_filing_number", Str("J1")), Prop("house_no", Str("101"))]
    ensures NearbyResults("100", h => ScenarioFetch(at99, at101, h)) == [at99]
  {
    ParseHundred();
    CandidatesForHundred("100");
    ScenarioGathered(at99, at101);
    assert FilingNumber(at99) == Some(Str("J1")) == FilingNumber(at101);
    DedupeSameNumber(at99, at101);
  }
}
