/** The description cell of the CSV export (DataService.js): the text in
    double quotes with every quote doubled, as section 2 of RFC 4180 asks of
    a field that may hold quotes, commas or line breaks. */
module Csv {
  import opened Wrappers

  /** `description.replace(/"/g, '""')`. */
  function DoubleQuotes(s: string): (r: string)
    ensures |r| == |s| + Quotes(s)
  {
    if s == [] then []
    else (if s[0] == '"' then "\"\"" else [s[0]]) + DoubleQuotes(s[1..])
  }

  /** How many double quotes a text holds. */
  function Quotes(s: string): nat {
    if s == [] then 0 else (if s[0] == '"' then 1 else 0) + Quotes(s[1..])
  }

  /** The quoted description cell. */
  function EscapeField(s: string): string {
    "\"" + DoubleQuotes(s) + "\""
  }

  /** The reading of the inside of a quoted field: `""` stands for one quote,
      and a lone quote is malformed. */
  function UndoubleQuotes(s: string): Option<string>
    decreases |s|
  {
    if s == [] then Some([])
    else if s[0] != '"' then
      match UndoubleQuotes(s[1..])
      case None => None
      case Some(rest) => Some([s[0]] + rest)
    else if |s| >= 2 && s[1] == '"' then
      match UndoubleQuotes(s[2..])
      case None => None
      case Some(rest) => Some("\"" + rest)
    else None
  }

  /** The reading of a whole quoted field. */
  function UnescapeField(s: string): Option<string> {
    if |s| >= 2 && s[0] == '"' && s[|s| - 1] == '"' then UndoubleQuotes(s[1..|s| - 1]) else None
  }

  lemma {:induction false} UndoubleDoubled(s: string)
    ensures UndoubleQuotes(DoubleQuotes(s)) == Some(s)
  {
    if s != [] {
      UndoubleDoubled(s[1..]);
      var d := DoubleQuotes(s);
      if s[0] == '"' {
        assert d == "\"\"" + DoubleQuotes(s[1..]);
        assert d[2..] == DoubleQuotes(s[1..]);
      } else {
        assert d == [s[0]] + DoubleQuotes(s[1..]);
        assert d[1..] == DoubleQuotes(s[1..]);
      }
      assert s == [s[0]] + s[1..];
    }
  }

  /** A reader of RFC 4180 fields recovers every description exactly. */
  lemma EscapeFieldRoundTrip(s: string)
    ensures UnescapeField(EscapeField(s)) == Some(s)
  {
    var e := EscapeField(s);
    assert e[1..|e| - 1] == DoubleQuotes(s);
    UndoubleDoubled(s);
  }
}
