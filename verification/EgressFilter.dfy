/** The egress filter applied to one outgoing request: what leaves, what is counted, and what is refused. */
module EgressFilter {
  import opened Options
  import opened Json
  import opened Egress
  import opened EgressPlaces

  /** What may leave; the system text, the messages and the tools of one request. */
  datatype Verdict = Verdict(system: string, messages: Json, tools: Json, findings: Findings, blocked: bool)

  function Enabled(f: Filter): bool {
    f.mode != Off && (f.patterns != [] || f.keys != {} || f.paths != [])
  }

  /** Everything one request is found to hold. */
  function RequestFound(f: Filter, system: string, messages: Json, tools: Json): Findings {
    ScrubFindings(f.patterns, system) + Found(f, messages) + Found(f, tools)
  }

  /**
   One outgoing request. Either it leaves as it is, because the filter is off, found nothing or refuses it,
   or it leaves redacted, and then redacting it again would change nothing.
   */
  method ApplyFilter(f: Filter, system: string, messages: Json, tools: Json) returns (r: Verdict)
    requires messages.List? && tools.List?
    ensures r.findings == if Enabled(f) then RequestFound(f, system, messages, tools) else multiset{}
    ensures r.blocked <==> r.findings != multiset{} && f.mode == Block
    ensures r.findings == multiset{} || r.blocked ==> (r.system, r.messages, r.tools) == (system, messages, tools)
    ensures r.findings != multiset{} && !r.blocked ==>
              (r.system, r.messages, r.tools) == (Scrub(f, system), Map(f, messages), Map(f, tools))
    ensures r.findings != multiset{} && !r.blocked ==>
              && (exists texts :: Passes(f.patterns, texts) && texts[0] == system && texts[|f.patterns|] == r.system)
              && (forall place :: MappedAt(f, messages, place, Find(r.messages, place)))
              && (forall place :: MappedAt(f, tools, place, Find(r.tools, place)))
    ensures Enabled(f) && f.mode == Redact && HonestPatterns(f.patterns) && PlainData(messages) && PlainData(tools) &&
            ScrubIsIdempotent(f) && Scrub(f, REDACTION) == REDACTION && KeysAreStable(f) ==>
              Scrub(f, r.system) == r.system && Map(f, r.messages) == r.messages && Map(f, r.tools) == r.tools
  {
    if !Enabled(f) {
      return Verdict(system, messages, tools, multiset{}, false);
    }
    var counts := new Counts();
    var cleanSystem := ScrubText(f, system, counts);
    var cleanMessages := MapRequest(f, messages, counts);
    var cleanTools := MapRequest(f, tools, counts);
    if counts.found == multiset{} {
      r := Verdict(system, messages, tools, multiset{}, false);
    } else if f.mode == Block {
      r := Verdict(system, messages, tools, counts.found, true);
    } else {
      r := Verdict(cleanSystem, cleanMessages, cleanTools, counts.found, false);
    }
    LeavesClean(f, system, messages, tools);
    LeavesRedacted(f, messages);
    LeavesRedacted(f, tools);
    ghost var texts := ScrubPasses(f.patterns, system);
  }

  lemma {:induction false} LeavesRedacted(f: Filter, v: Json)
    ensures forall place :: MappedAt(f, v, place, Find(Map(f, v), place))
  {
    forall place
      ensures MappedAt(f, v, place, Find(Map(f, v), place))
    {
      MapRedactsExactly(f, v, place);
    }
  }

  /** What leaves an enabled, redacting filter needs no more redaction. */
  lemma {:induction false} LeavesClean(f: Filter, system: string, messages: Json, tools: Json)
    ensures HonestPatterns(f.patterns) && PlainData(messages) && PlainData(tools) &&
            RequestFound(f, system, messages, tools) == multiset{} ==>
              Scrub(f, system) == system && Map(f, messages) == messages && Map(f, tools) == tools
    ensures ScrubIsIdempotent(f) && Scrub(f, REDACTION) == REDACTION && KeysAreStable(f) ==>
              && Scrub(f, Scrub(f, system)) == Scrub(f, system)
              && Map(f, Map(f, messages)) == Map(f, messages) && Map(f, Map(f, tools)) == Map(f, tools)
  {
    if HonestPatterns(f.patterns) && PlainData(messages) && PlainData(tools) &&
       RequestFound(f, system, messages, tools) == multiset{} {
      NothingInSum(ScrubFindings(f.patterns, system) + Found(f, messages), Found(f, tools));
      NothingInSum(ScrubFindings(f.patterns, system), Found(f, messages));
      NothingScrubbed(f.patterns, system);
      NoFindingNoChange(f, messages);
      NoFindingNoChange(f, tools);
    }
    if ScrubIsIdempotent(f) && Scrub(f, REDACTION) == REDACTION && KeysAreStable(f) {
      MapIsIdempotent(f, messages);
      MapIsIdempotent(f, tools);
    }
  }
}
