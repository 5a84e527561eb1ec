/** The JSON-path subset of declarative verification: `$`, `.name`, `[*]` and `[index]`. */
module JsonPath {
  import opened Options
  import opened Json
  import Decimal

  datatype Segment = Key(name: string) | Wildcard | Index(index: nat)

  // ------------------------------------------------------------------ the grammar

  predicate NameStart(c: char) {
    'A' <= c <= 'Z' || 'a' <= c <= 'z' || c == '_'
  }

  predicate NameChar(c: char) {
    NameStart(c) || '0' <= c <= '9' || c == '-'
  }

  predicate ValidName(name: string) {
    name != "" && NameStart(name[0]) && forall k :: 0 <= k < |name| ==> NameChar(name[k])
  }

  /** The text is a way to write the segment; an index may have leading zeros. */
  predicate Writes(text: string, s: Segment) {
    match s
    case Key(name) => ValidName(name) && text == "." + name
    case Wildcard => text == "[*]"
    case Index(n) =>
      && |text| >= 3 && text[0] == '[' && text[|text| - 1] == ']'
      && Decimal.AllDigits(text[1..|text| - 1])
      && Decimal.Parse(text[1..|text| - 1]) == n
  }

  /** How a key is written: a dot, then a letter or underscore, then letters, digits, underscores and dashes. */
  lemma KeysAreWords(text: string, name: string)
    ensures Writes(text, Key(name)) <==>
            && text == "." + name && name != "" && name[0] != '-' && !('0' <= name[0] <= '9')
            && forall k :: 0 <= k < |name| ==>
                 || 'A' <= name[k] <= 'Z' || 'a' <= name[k] <= 'z' || '0' <= name[k] <= '9'
                 || name[k] == '_' || name[k] == '-'
  {
  }

  /** The text is made of ways to write the segments, one after the other. */
  ghost predicate WritesAll(text: string, segments: seq<Segment>)
    decreases |segments|
  {
    if segments == [] then text == ""
    else exists cut :: 0 <= cut <= |text| && Writes(text[..cut], segments[0]) && WritesAll(text[cut..], segments[1..])
  }

  // ------------------------------------------------------------------ the parser

  function NameLength(text: string): (n: nat)
    ensures n <= |text| && forall k :: 0 <= k < n ==> NameChar(text[k])
  {
    if text == "" || !NameChar(text[0]) then 0 else 1 + NameLength(text[1..])
  }

  function DigitsLength(text: string): (n: nat)
    ensures n <= |text| && Decimal.AllDigits(text[..n])
  {
    if text == "" || !Decimal.IsDigit(text[0]) then 0
    else
      var n := 1 + DigitsLength(text[1..]);
      assert forall k :: 1 <= k < n ==> text[..n][k] == text[1..][..n - 1][k - 1];
      n
  }

  /** The regular expression of one segment, matched greedily at the front of the text: the segment and its length. */
  function MatchSegment(text: string): (r: Option<(Segment, nat)>)
    ensures r.Some? ==> 0 < r.value.1 <= |text|
  {
    if |text| >= 2 && text[0] == '.' && NameStart(text[1]) then
      var n := NameLength(text[1..]);
      Some((Key(text[1..][..n]), n + 1))
    else if |text| >= 3 && text[0] == '[' && text[1] == '*' && text[2] == ']' then Some((Wildcard, 3))
    else if |text| >= 3 && text[0] == '[' then
      var n := DigitsLength(text[1..]);
      if n > 0 && n + 1 < |text| && text[n + 1] == ']'
      then Some((Index(Decimal.Parse(text[1..][..n])), n + 2))
      else None
    else None
  }

  function Segments(text: string): Option<seq<Segment>> {
    if text == "" then Some([])
    else
      var m := MatchSegment(text);
      if m.None? then None else After([m.value.0], Segments(text[m.value.1..]))
  }

  function After(front: seq<Segment>, rest: Option<seq<Segment>>): Option<seq<Segment>> {
    if rest.None? then None else Some(front + rest.value)
  }

  lemma AfterAfter(a: seq<Segment>, b: seq<Segment>, rest: Option<seq<Segment>>)
    ensures After(a, After(b, rest)) == After(a + b, rest)
    ensures After([], rest) == rest
  {
    if rest.Some? {
      assert [] + rest.value == rest.value;
      assert a + (b + rest.value) == (a + b) + rest.value;
    }
  }

  /** `parse_json_path`; None stands for the ValueError. */
  method ParseJsonPath(path: string) returns (r: Option<seq<Segment>>)
    ensures r == if path != "" && path[0] == '$' then Segments(path[1..]) else None
  {
    if path == "" || path[0] != '$' {
      return None;
    }
    var position := 1;
    var segments := [];
    AfterAfter([], [], Segments(path[1..]));
    while position < |path|
      invariant 1 <= position <= |path|
      invariant Segments(path[1..]) == After(segments, Segments(path[position..]))
      decreases |path| - position
    {
      var m := MatchSegment(path[position..]);
      if m.None? {
        return None;
      }
      assert path[position..][m.value.1..] == path[position + m.value.1..];
      AfterAfter(segments, [m.value.0], Segments(path[position + m.value.1..]));
      segments := segments + [m.value.0];
      position := position + m.value.1;
    }
    assert segments + [] == segments;
    r := Some(segments);
  }

  /** A match is a way to write the segment it stands for. */
  lemma MatchIsWritten(text: string)
    requires MatchSegment(text).Some?
    ensures Writes(text[..MatchSegment(text).value.1], MatchSegment(text).value.0)
  {
    var m := MatchSegment(text).value;
    var front := text[..m.1];
    match m.0
    case Key(name) =>
      assert name[0] == text[1];
      assert front == "." + name;
    case Wildcard =>
      assert front == "[*]";
    case Index(_) =>
      assert front[1..|front| - 1] == text[1..][..m.1 - 2];
  }

  lemma {:induction false} NameEnds(name: string, rest: string)
    requires forall k :: 0 <= k < |name| ==> NameChar(name[k])
    requires rest == "" || !NameChar(rest[0])
    ensures NameLength(name + rest) == |name|
  {
    if name == "" {
      assert name + rest == rest;
    } else {
      assert (name + rest)[1..] == name[1..] + rest;
      NameEnds(name[1..], rest);
    }
  }

  lemma {:induction false} DigitsEnd(digits: string, rest: string)
    requires Decimal.AllDigits(digits) && rest != "" && !Decimal.IsDigit(rest[0])
    ensures DigitsLength(digits + rest) == |digits|
  {
    if digits == "" {
      assert digits + rest == rest;
    } else {
      assert (digits + rest)[1..] == digits[1..] + rest;
      DigitsEnd(digits[1..], rest);
    }
  }

  lemma MatchKey(name: string, rest: string)
    requires ValidName(name) && (rest == "" || !NameChar(rest[0]))
    ensures MatchSegment("." + name + rest) == Some((Key(name), |name| + 1))
  {
    var text := "." + name + rest;
    NameEnds(name, rest);
    assert text[1..] == name + rest && text[1] == name[0];
    assert (name + rest)[..|name|] == name;
  }

  lemma {:induction false} MatchIndex(text: string, digits: string, tail: string)
    requires text != "" && text[0] == '[' && text[1..] == digits + tail
    requires digits != "" && Decimal.AllDigits(digits) && tail != "" && tail[0] == ']'
    ensures MatchSegment(text) == Some((Index(Decimal.Parse(digits)), |digits| + 2))
  {
    DigitsEnd(digits, tail);
    assert text[1] == text[1..][0] == digits[0] && text[|digits| + 1] == text[1..][|digits|] == ']';
    assert (digits + tail)[..|digits|] == digits;
  }

  /** What one segment may be followed by. */
  lemma {:induction false} NextStartsSegment(text: string, segments: seq<Segment>)
    requires WritesAll(text, segments) && text != ""
    ensures text[0] == '.' || text[0] == '['
  {
    var cut :| 0 <= cut <= |text| && Writes(text[..cut], segments[0]) && WritesAll(text[cut..], segments[1..]);
    assert text[..cut][0] == text[0];
  }

  lemma AfterBracket(digits: string, rest: string)
    ensures var text := "[" + digits + "]" + rest;
            text[0] == '[' && text[1..] == digits + ("]" + rest)
  {
    var text := "[" + digits + "]" + rest;
    assert text == "[" + (digits + ("]" + rest));
  }

  /** The greedy match finds the segment that was written, and stops where it was finished. */
  lemma MatchFindsWritten(front: string, s: Segment, rest: string)
    requires Writes(front, s) && (rest == "" || rest[0] == '.' || rest[0] == '[')
    ensures MatchSegment(front + rest) == Some((s, |front|))
  {
    match s
    case Wildcard =>
    case Key(name) =>
      MatchKey(name, rest);
    case Index(_) =>
      var digits := front[1..|front| - 1];
      assert front == "[" + digits + "]";
      AfterBracket(digits, rest);
      MatchIndex(front + rest, digits, "]" + rest);
  }

  lemma {:induction false} SegmentsAreWritten(text: string)
    requires Segments(text).Some?
    ensures WritesAll(text, Segments(text).value)
  {
    if text != "" {
      var m := MatchSegment(text).value;
      MatchIsWritten(text);
      SegmentsAreWritten(text[m.1..]);
      assert Segments(text).value[1..] == Segments(text[m.1..]).value;
    }
  }

  lemma {:induction false} FirstIsMatched(text: string, cut: nat, first: Segment, rest: seq<Segment>)
    requires cut <= |text| && Writes(text[..cut], first) && WritesAll(text[cut..], rest)
    ensures text != "" && MatchSegment(text) == Some((first, cut))
  {
    if text[cut..] != "" {
      NextStartsSegment(text[cut..], rest);
    }
    MatchFindsWritten(text[..cut], first, text[cut..]);
    assert text[..cut] + text[cut..] == text;
  }

  lemma {:induction false} ParsedFirst(text: string, cut: nat, segments: seq<Segment>)
    requires text != "" && segments != [] && MatchSegment(text) == Some((segments[0], cut))
    requires Segments(text[cut..]) == Some(segments[1..])
    ensures Segments(text) == Some(segments)
  {
    assert [segments[0]] + segments[1..] == segments;
  }

  lemma {:induction false} WrittenIsParsed(text: string, segments: seq<Segment>)
    requires WritesAll(text, segments)
    ensures Segments(text) == Some(segments)
    decreases |segments|
  {
    if segments != [] {
      var cut :| 0 <= cut <= |text| && Writes(text[..cut], segments[0]) && WritesAll(text[cut..], segments[1..]);
      FirstIsMatched(text, cut, segments[0], segments[1..]);
      WrittenIsParsed(text[cut..], segments[1..]);
      ParsedFirst(text, cut, segments);
    }
  }

  /** The parser decides the grammar, which is unambiguous: it returns the segments exactly when they are written. */
  lemma {:induction false} ParserDecidesGrammar(text: string, segments: seq<Segment>)
    ensures Segments(text) == Some(segments) <==> WritesAll(text, segments)
  {
    if Segments(text) == Some(segments) {
      SegmentsAreWritten(text);
    }
    if WritesAll(text, segments) {
      WrittenIsParsed(text, segments);
    }
  }

  function PrintSegment(s: Segment): string {
    match s
    case Key(name) => "." + name
    case Wildcard => "[*]"
    case Index(n) => "[" + Decimal.Print(n) + "]"
  }

  function PrintAll(segments: seq<Segment>): string {
    if segments == [] then "" else PrintSegment(segments[0]) + PrintAll(segments[1..])
  }

  /** Round trip: a printed path of proper names parses to the path. */
  lemma {:induction false} PrintedPathIsParsed(segments: seq<Segment>)
    requires forall s :: s in segments && s.Key? ==> ValidName(s.name)
    ensures WritesAll(PrintAll(segments), segments) && Segments(PrintAll(segments)) == Some(segments)
  {
    if segments != [] {
      PrintedPathIsParsed(segments[1..]);
      var s, first, text := segments[0], PrintSegment(segments[0]), PrintAll(segments);
      if s.Index? {
        Decimal.ParsePrint(s.index);
        assert first[1..|first| - 1] == Decimal.Print(s.index);
      }
      assert text[..|first|] == first && text[|first|..] == PrintAll(segments[1..]);
    }
    WrittenIsParsed(PrintAll(segments), segments);
  }

  // ------------------------------------------------------------------ extraction

  /** What one segment selects below a value. */
  function Step(v: Json, s: Segment): seq<Json> {
    match s
    case Key(name) => if v.Dict? && Get(v.entries, name).Some? then [Get(v.entries, name).value] else []
    case Wildcard => if v.List? then v.items else []
    case Index(n) => if v.List? && n < |v.items| then [v.items[n]] else []
  }

  function StepAll(items: seq<Json>, s: Segment): seq<Json> {
    if items == [] then [] else Step(items[0], s) + StepAll(items[1..], s)
  }

  /** What a path selects below a value, value by value: everything below the first step, then the second, ... */
  function Select(v: Json, segments: seq<Segment>): seq<Json>
    decreases |segments|, 0, 0
  {
    if segments == [] then [v] else SelectAll(Step(v, segments[0]), segments[1..])
  }

  function SelectAll(items: seq<Json>, segments: seq<Segment>): seq<Json>
    decreases |segments|, 1, |items|
  {
    if items == [] then [] else Select(items[0], segments) + SelectAll(items[1..], segments)
  }

  /** One segment over the whole selection. */
  method ExtractSegment(current: seq<Json>, segment: Segment) returns (selected: seq<Json>)
    ensures selected == StepAll(current, segment)
  {
    selected := [];
    for j := 0 to |current|
      invariant selected + StepAll(current[j..], segment) == StepAll(current, segment)
    {
      var item := current[j];
      ghost var before := selected;
      match segment {
        case Key(name) =>
          if item.Dict? && Get(item.entries, name).Some? {
            selected := selected + [Get(item.entries, name).value];
          }
        case Wildcard =>
          if item.List? {
            selected := selected + item.items;
          }
        case Index(n) =>
          if item.List? && n < |item.items| {
            selected := selected + [item.items[n]];
          }
      }
      assert selected == before + Step(item, segment);
      MoveOn(before, current[j..], segment);
      assert current[j..][1..] == current[j + 1..];
    }
  }

  lemma {:induction false} MoveOn(before: seq<Json>, items: seq<Json>, s: Segment)
    requires items != []
    ensures before + StepAll(items, s) == before + Step(items[0], s) + StepAll(items[1..], s)
  {
  }

  /** `extract_json_path`: segment by segment over the whole selection; None stands for the ValueError. */
  method ExtractJsonPath(value: Json, path: string) returns (r: Option<seq<Json>>)
    ensures r.Some? <==> path != "" && path[0] == '$' && Segments(path[1..]).Some?
    ensures r.Some? ==> r.value == Select(value, Segments(path[1..]).value)
  {
    var parsed := ParseJsonPath(path);
    if parsed.None? {
      return None;
    }
    var segments := parsed.value;
    var current := [value];
    SelectOne(value, segments);
    for i := 0 to |segments|
      invariant SelectAll(current, segments[i..]) == Select(value, segments)
    {
      StepThenSelect(current, segments[i..]);
      assert segments[i..][1..] == segments[i + 1..];
      current := ExtractSegment(current, segments[i]);
    }
    SelectNothingMore(current);
    r := Some(current);
  }

  lemma {:induction false} SelectOne(v: Json, segments: seq<Segment>)
    ensures SelectAll([v], segments) == Select(v, segments)
  {
    assert SelectAll([v][1..], segments) == [];
  }

  lemma {:induction false} SelectNothingMore(items: seq<Json>)
    ensures SelectAll(items, []) == items
  {
    if items != [] {
      SelectNothingMore(items[1..]);
    }
  }

  lemma {:induction false} SelectAllSplits(a: seq<Json>, b: seq<Json>, segments: seq<Segment>)
    ensures SelectAll(a + b, segments) == SelectAll(a, segments) + SelectAll(b, segments)
  {
    if a == [] {
      assert a + b == b;
    } else {
      SelectAllSplits(a[1..], b, segments);
      assert (a + b)[1..] == a[1..] + b;
      Regroup(Select(a[0], segments), SelectAll(a[1..], segments), SelectAll(b, segments));
    }
  }

  lemma Regroup(x: seq<Json>, y: seq<Json>, z: seq<Json>)
    ensures x + (y + z) == (x + y) + z
  {
  }

  /** Going one segment further over a whole selection is going one segment further below each of its values. */
  lemma {:induction false} StepThenSelect(items: seq<Json>, segments: seq<Segment>)
    requires segments != []
    ensures SelectAll(items, segments) == SelectAll(StepAll(items, segments[0]), segments[1..])
  {
    if items != [] {
      StepThenSelect(items[1..], segments);
      SelectAllSplits(Step(items[0], segments[0]), StepAll(items[1..], segments[0]), segments[1..]);
    }
  }

  /** Extraction is compositional: by a path and then, below each value found, by another. */
  lemma {:induction false} ExtractionComposes(items: seq<Json>, a: seq<Segment>, b: seq<Segment>)
    ensures SelectAll(items, a + b) == SelectAll(SelectAll(items, a), b)
    decreases |a|
  {
    if a == [] {
      assert a + b == b;
      SelectNothingMore(items);
    } else {
      StepThenSelect(items, a + b);
      StepThenSelect(items, a);
      assert (a + b)[1..] == a[1..] + b;
      ExtractionComposes(StepAll(items, a[0]), a[1..], b);
    }
  }

  // ------------------------------------------------------------------ what is selected, by where it is

  predicate Covers(segments: seq<Segment>, place: seq<Turn>) {
    |segments| == |place| && forall k :: 0 <= k < |place| ==> CoversTurn(segments[k], place[k])
  }

  predicate CoversTurn(s: Segment, t: Turn) {
    match s
    case Key(name) => t == At(name)
    case Wildcard => t.Nth?
    case Index(n) => t == Nth(n)
  }

  lemma {:induction false} SelectAllMember(items: seq<Json>, segments: seq<Segment>, found: Json)
    ensures found in SelectAll(items, segments) <==> exists i :: 0 <= i < |items| && found in Select(items[i], segments)
  {
    if items != [] {
      SelectAllMember(items[1..], segments, found);
      if i :| 0 <= i < |items| && found in Select(items[i], segments) {
        if i > 0 {
          assert items[1..][i - 1] == items[i];
        }
      }
      if i :| 0 <= i < |items[1..]| && found in Select(items[1..][i], segments) {
        assert items[i + 1] == items[1..][i];
      }
    }
  }

  lemma {:induction false} FoundHasPlace(v: Json, segments: seq<Segment>, found: Json) returns (place: seq<Turn>)
    requires found in Select(v, segments)
    ensures Covers(segments, place) && Find(v, place) == Some(found)
    decreases |segments|
  {
    if segments == [] {
      return [];
    }
    var below, s := Step(v, segments[0]), segments[0];
    SelectAllMember(below, segments[1..], found);
    var i :| 0 <= i < |below| && found in Select(below[i], segments[1..]);
    var rest := FoundHasPlace(below[i], segments[1..], found);
    var turn := if s.Key? then At(s.name) else if s.Wildcard? then Nth(i) else Nth(s.index);
    place := [turn] + rest;
    assert place[1..] == rest;
  }

  lemma {:induction false} PlaceIsFound(v: Json, segments: seq<Segment>, place: seq<Turn>)
    requires Covers(segments, place) && Find(v, place).Some?
    ensures Find(v, place).value in Select(v, segments)
    decreases |segments|
  {
    if segments != [] {
      var below, t, s := Step(v, segments[0]), place[0], segments[0];
      assert CoversTurn(s, t);
      var i := if s.Wildcard? then t.index else 0;
      assert t.At? ==> Find(below[i], place[1..]) == Find(v, place);
      PlaceIsFound(below[i], segments[1..], place[1..]);
      SelectAllMember(below, segments[1..], Find(v, place).value);
    }
  }

  /** A path finds exactly the values at the places its segments cover. */
  lemma {:induction false} ExtractsExactlyTheCovered(v: Json, segments: seq<Segment>, found: Json)
    ensures found in Select(v, segments) <==>
            exists place :: Covers(segments, place) && Find(v, place) == Some(found)
  {
    if found in Select(v, segments) {
      var place := FoundHasPlace(v, segments, found);
    }
    if place :| Covers(segments, place) && Find(v, place) == Some(found) {
      PlaceIsFound(v, segments, place);
    }
  }

  /** Without a wildcard there is at most one value. */
  lemma {:induction false} NoWildcardFindsOne(v: Json, segments: seq<Segment>)
    requires forall s :: s in segments ==> !s.Wildcard?
    ensures |Select(v, segments)| <= 1
    decreases |segments|
  {
    if segments != [] {
      var below := Step(v, segments[0]);
      assert segments[0] in segments;
      if below != [] {
        assert below == [below[0]];
        SelectOne(below[0], segments[1..]);
        NoWildcardFindsOne(below[0], segments[1..]);
      }
    }
  }
}
