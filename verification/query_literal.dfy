/**
 * Quoting of values inside the dataset's query literals: `replace(/'/g, "''")`
 * doubles every single quote, so the literal cannot end early.
 */
module QueryLiteral {
  import opened Wrappers
  import opened JsString

  /** `s.replace(/'/g, "''")`. */
  function Escape(s: string): (r: string)
  {
    if s == [] then []
    else if s[0] == '\'' then "''" + Escape(s[1..])
    else [s[0]] + Escape(s[1..])
  }

  /** Reads the body of a quoted literal back: `''` stands for one quote; a lone quote would end the literal, so it is rejected. */
  function Unescape(t: string): (r: Option<string>)
  {
    if t == [] then Some([])
    else if t[0] == '\'' then
      if |t| >= 2 && t[1] == '\'' then
        match Unescape(t[2..])
        case Some(rest) => Some("'" + rest)
        case None => None
      else None
    else
      match Unescape(t[1..])
      case Some(rest) => Some([t[0]] + rest)
      case None => None
  }

  /** The escaped text is a complete literal body that reads back as the original value. */
  lemma {:induction false} UnescapeEscape(s: string)
    ensures Unescape(Escape(s)) == Some(s)
  {
    if s != [] {
      UnescapeEscape(s[1..]);
      var e := Escape(s);
      if s[0] == '\'' {
        assert e[2..] == Escape(s[1..]);
      } else {
        assert e[1..] == Escape(s[1..]);
      }
      assert s == [s[0]] + s[1..];
    }
  }

  /** Escaping is injective: distinct values give distinct literals. */
  lemma EscapeInjective(a: string, b: string)
    requires Escape(a) == Escape(b)
    ensures a == b
  {
    UnescapeEscape(a);
    UnescapeEscape(b);
  }

  function CountQuotes(s: string): nat {
    if s == [] then 0 else (if s[0] == '\'' then 1 else 0) + CountQuotes(s[1..])
  }

  /** Escaping adds exactly one character per quote and changes nothing else. */
  lemma {:induction false} EscapeLength(s: string)
    ensures |Escape(s)| == |s| + CountQuotes(s)
  {
    if s != [] { EscapeLength(s[1..]); }
  }

  /** Upper-casing and escaping commute, since a quote has no case. */
  lemma {:induction false} EscapeUpperCommute(s: string)
    ensures Escape(Upper(s)) == Upper(Escape(s))
  {
    if s != [] {
      EscapeUpperCommute(s[1..]);
      assert Upper(s)[1..] == Upper(s[1..]);
      var e := Escape(s);
      if s[0] == '\'' {
        assert e == "''" + Escape(s[1..]);
        assert Upper(e) == "''" + Upper(Escape(s[1..]));
      } else {
        assert e == [s[0]] + Escape(s[1..]);
        assert Upper(e) == [UpperChar(s[0])] + Upper(Escape(s[1..]));
      }
    }
  }
}
