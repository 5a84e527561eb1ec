/** Quoting a path for a Seatbelt profile, and reading the literal back as the profile's C-like syntax does. */
module SbLiteral {
  import opened Options

  /** `text.replace(c, with)` for a one-character pattern. */
  function Replace(text: string, c: char, with: string): string {
    if text == "" then "" else (if text[0] == c then with else [text[0]]) + Replace(text[1..], c, with)
  }

  /** Backslashes are doubled first, then quotes are escaped. */
  function Quote(value: string): string {
    "\"" + Replace(Replace(value, '\\', "\\\\"), '"', "\\\"") + "\""
  }

  /** What a literal denotes after its opening quote, and the text after its closing one; None when it never closes. */
  function ReadBody(text: string): Option<(string, string)> {
    if text == "" then None
    else if text[0] == '"' then Some(("", text[1..]))
    else
      var (c, rest) := if text[0] == '\\' && |text| > 1 then (text[1], text[2..]) else (text[0], text[1..]);
      match ReadBody(rest)
      case None => None
      case Some((value, after)) => Some(([c] + value, after))
  }

  function ReadLiteral(text: string): (r: Option<(string, string)>)
    ensures r.Some? ==> "\"" <= text
  {
    if text != "" && text[0] == '"' then ReadBody(text[1..]) else None
  }

  /** Both replacements together, one character at a time. */
  function Escape(value: string): string {
    if value == "" then ""
    else
      (if value[0] == '\\' then "\\\\" else if value[0] == '"' then "\\\"" else [value[0]]) + Escape(value[1..])
  }

  lemma {:induction false} ReplaceConcat(a: string, b: string, c: char, with: string)
    ensures Replace(a + b, c, with) == Replace(a, c, with) + Replace(b, c, with)
  {
    if a == "" {
      assert a + b == b;
    } else {
      assert (a + b)[1..] == a[1..] + b;
      ReplaceConcat(a[1..], b, c, with);
    }
  }

  lemma {:induction false} TwoReplacesEscape(value: string)
    ensures Replace(Replace(value, '\\', "\\\\"), '"', "\\\"") == Escape(value)
  {
    if value != "" {
      var head := if value[0] == '\\' then "\\\\" else [value[0]];
      TwoReplacesEscape(value[1..]);
      ReplaceConcat(head, Replace(value[1..], '\\', "\\\\"), '"', "\\\"");
      assert "\\\\"[1..] == "\\" && "\\"[1..] == "" && [value[0]][1..] == "";
    }
  }

  lemma {:induction false} ReadEscape(value: string, rest: string)
    ensures ReadBody(Escape(value) + "\"" + rest) == Some((value, rest))
  {
    var text := Escape(value) + "\"" + rest;
    if value == "" {
      assert text == "\"" + rest;
    } else {
      var tail := Escape(value[1..]) + "\"" + rest;
      ReadEscape(value[1..], rest);
      assert [value[0]] + value[1..] == value;
      if value[0] == '\\' || value[0] == '"' {
        assert text == ['\\', value[0]] + tail;
        assert text[2..] == tail;
      } else {
        assert text == [value[0]] + tail;
        assert text[1..] == tail;
      }
    }
  }

  /** Whatever the path, its literal ends at its own closing quote and denotes exactly that path. */
  lemma QuoteReadsBack(value: string, rest: string)
    ensures ReadLiteral(Quote(value) + rest) == Some((value, rest))
  {
    TwoReplacesEscape(value);
    ReadEscape(value, rest);
    assert (Quote(value) + rest)[1..] == Escape(value) + "\"" + rest;
  }
}
