/**
 * Permit records as the dataset's JSON delivers them, safe dotted-path field
 * access with a default (`getField`), JavaScript's `String(v)` and truthiness
 * on field values, and the borough-name to borough-code table.
 */
module Permits {
  import opened Wrappers
  import opened JsString
  import opened JsNumber

  /** A JSON value as it appears in a permit record; numbers are integers in this model. */
  datatype Value = Str(s: string) | Num(n: int) | Bool(b: bool) | Null | Obj(props: seq<Prop>)

  /** One own property of an object. */
  datatype Prop = Prop(key: string, val: Value)

  /** A permit: its own properties in the order `for...in` visits them. */
  type Record = seq<Prop>

  /** The `'N/A'` placeholder that stands for a missing value. */
  const NA: Value := Str("N/A")

  function Keys(props: seq<Prop>): (ks: seq<string>)
    ensures |ks| == |props|
    ensures forall i :: 0 <= i < |props| ==> ks[i] == props[i].key
  {
    if props == [] then [] else [props[0].key] + Keys(props[1..])
  }

  /** `k in o ? o[k] : undefined` on an object: the value of the first property named `k`. */
  function Lookup(props: seq<Prop>, k: string): (r: Option<Value>)
    ensures r.Some? <==> k in Keys(props)
    ensures r.Some? ==> Prop(k, r.value) in props
  {
    if props == [] then None
    else if props[0].key == k then Some(props[0].val)
    else Lookup(props[1..], k)
  }

  /** `path.split('.')`. */
  function Split(s: string): (parts: seq<string>)
    ensures |parts| >= 1
    ensures forall i :: 0 <= i < |parts| ==> '.' !in parts[i]
  {
    if s == [] then [[]]
    else if s[0] == '.' then [[]] + Split(s[1..])
    else
      var rest := Split(s[1..]);
      [[s[0]] + rest[0]] + rest[1..]
  }

  /** `parts.join('.')`. */
  function Join(parts: seq<string>): string
    requires |parts| >= 1
  {
    if |parts| == 1 then parts[0] else parts[0] + "." + Join(parts[1..])
  }

  /** Splitting on dots loses nothing: joining the parts gives the path back. */
  lemma {:induction false} JoinSplit(s: string)
    ensures Join(Split(s)) == s
  {
    if s != [] {
      JoinSplit(s[1..]);
      var rest := Split(s[1..]);
      if s[0] != '.' {
        if |rest| == 1 {
          assert Join(Split(s)) == [s[0]] + rest[0];
        } else {
          assert Split(s)[1..] == rest[1..];
          assert Join(Split(s)) == ([s[0]] + rest[0]) + "." + Join(rest[1..]);
        }
        assert s == [s[0]] + s[1..];
      }
    }
  }

  /** A path without a dot is a single key. */
  lemma SplitNoDot(s: string)
    requires '.' !in s
    ensures Split(s) == [s]
  {
    if s != [] {
      assert '.' !in s[1..] by { assert forall i :: 0 <= i < |s[1..]| ==> s[1..][i] == s[i + 1]; }
      SplitNoDot(s[1..]);
      assert s == [s[0]] + s[1..];
    }
  }

  /** One reduction step of `getField`: descend into `k` when the current value is an object that has it. */
  function Step(o: Option<Value>, k: string): Option<Value> {
    match o
    case Some(Obj(props)) => Lookup(props, k)
    case _ => None
  }

  /** The `reduce` over the path's keys. */
  function Walk(o: Option<Value>, keys: seq<string>): (r: Option<Value>)
    ensures o.None? ==> r.None?
    decreases |keys|
  {
    if keys == [] then o else Walk(Step(o, keys[0]), keys[1..])
  }

  /** A value that `getField` treats as absent: `undefined`, `null` or the empty string. */
  predicate Absent(v: Option<Value>) {
    v.None? || v.value == Null || v.value == Str("")
  }

  /** `getField(obj, path, defaultValue)`. */
  function GetField(rec: Record, path: string, default: Value): (r: Value)
    ensures r == default || (r != Null && r != Str(""))
    ensures r != default ==> Walk(Some(Obj(rec)), Split(path)) == Some(r)
  {
    var v := Walk(Some(Obj(rec)), Split(path));
    if Absent(v) then default else v.value
  }

  /** For a path without a dot, `getField` is the record's own property unless that is absent. */
  lemma {:induction false} GetFieldSingleKey(rec: Record, key: string, default: Value)
    requires '.' !in key
    ensures GetField(rec, key, default) == if Absent(Lookup(rec, key)) then default else Lookup(rec, key).value
  {
    SplitNoDot(key);
    assert Walk(Some(Obj(rec)), [key]) == Walk(Lookup(rec, key), []);
  }

  /** A dotted path descends one object per dot. */
  lemma {:induction false} GetFieldNested(rec: Record, key: string, path: string, default: Value)
    requires '.' !in key
    ensures GetField(rec, key + "." + path, default) ==
            if Absent(Walk(Step(Some(Obj(rec)), key), Split(path))) then default
            else Walk(Step(Some(Obj(rec)), key), Split(path)).value
  {
    SplitKeyDotPath(key, path);
  }

  lemma {:induction false} SplitKeyDotPath(key: string, path: string)
    requires '.' !in key
    ensures Split(key + "." + path) == [key] + Split(path)
    decreases |key|
  {
    if key == [] {
      assert key + "." + path == ['.'] + path;
      assert (['.'] + path)[1..] == path;
    } else {
      assert (key + "." + path)[1..] == key[1..] + "." + path;
      assert '.' !in key[1..] by { assert forall i :: 0 <= i < |key[1..]| ==> key[1..][i] == key[i + 1]; }
      SplitKeyDotPath(key[1..], path);
      assert key == [key[0]] + key[1..];
    }
  }

  /** `String(v)`. */
  function ToJsString(v: Value): (s: string)
    ensures v.Str? ==> s == v.s
  {
    match v
    case Str(s) => s
    case Num(n) => IntToString(n)
    case Bool(b) => if b then "true" else "false"
    case Null => "null"
    case Obj(_) => "[object Object]"
  }

  /** JavaScript truthiness of a property read (`undefined` is `None`). */
  predicate Truthy(o: Option<Value>) {
    match o
    case None => false
    case Some(Str(s)) => s != ""
    case Some(Num(n)) => n != 0
    case Some(Bool(b)) => b
    case Some(Null) => false
    case Some(Obj(_)) => true
  }

  /** The borough names in upper case, indexed by their codes '1' to '5'. */
  function BoroughName(code: string): string {
    if code == "1" then "MANHATTAN"
    else if code == "2" then "BRONX"
    else if code == "3" then "BROOKLYN"
    else if code == "4" then "QUEENS"
    else if code == "5" then "STATEN ISLAND"
    else ""
  }

  const BoroughCodes: set<string> := {"1", "2", "3", "4", "5"}

  /** `getBoroughCode(boroughName)`: the code of a borough named in any letter case, `null` (here `None`) otherwise. */
  function BoroughCode(name: Option<Value>): (r: Option<string>)
    ensures r.Some? ==> r.value in BoroughCodes
  {
    if !Truthy(name) then None else CodeOfName(Upper(ToJsString(name.value)))
  }

  /** The `switch` of `getBoroughCode` on the upper-cased name. */
  function CodeOfName(n: string): (r: Option<string>)
    ensures r.Some? ==> r.value in BoroughCodes
  {
    if n == "MANHATTAN" then Some("1")
    else if n == "BRONX" then Some("2")
    else if n == "BROOKLYN" then Some("3")
    else if n == "QUEENS" then Some("4")
    else if n == "STATEN ISLAND" then Some("5")
    else None
  }

  lemma CodeOfNameSpec(n: string, c: string)
    requires c in BoroughCodes
    ensures CodeOfName(n) == Some(c) <==> n == BoroughName(c)
  {
  }

  /** A name has code `c` exactly when it is truthy and, upper-cased, is the name of borough `c`. */
  lemma BoroughCodeSpec(name: Option<Value>, c: string)
    requires c in BoroughCodes
    ensures BoroughCode(name) == Some(c) <==> Truthy(name) && Upper(ToJsString(name.value)) == BoroughName(c)
  {
    if Truthy(name) {
      CodeOfNameSpec(Upper(ToJsString(name.value)), c);
    }
  }

  /** The lookup ignores letter case. */
  lemma {:induction false} BoroughCodeCaseInsensitive(s: string)
    ensures BoroughCode(Some(Str(s))) == BoroughCode(Some(Str(Upper(s))))
  {
    UpperIdempotent(s);
    assert s == "" <==> Upper(s) == "";
  }

  /** Every borough name starts with a capital letter. */
  lemma CodeOfNameNeedsLetter(n: string)
    requires n == [] || !('A' <= n[0] <= 'Z')
    ensures CodeOfName(n) == None
  {
  }

  /** Only strings name a borough: numbers, booleans, `null` and objects have no code. */
  lemma {:induction false} BoroughCodeNeedsString(v: Value)
    requires !v.Str?
    ensures BoroughCode(Some(v)) == None
  {
    var d := ToJsString(v);
    var u := Upper(d);
    if v.Num? || v.Obj? {
      assert IsDecimalDigit(d[0]) || d[0] == '-' || d[0] == '[';
      assert u[0] == UpperChar(d[0]);
      CodeOfNameNeedsLetter(u);
    } else if v.Bool? {
      assert u == "TRUE" || u == "FALSE";
    } else {
      assert u == "NULL";
    }
  }
}
