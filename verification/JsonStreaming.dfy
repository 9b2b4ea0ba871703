/** Consuming JSON from a message that may have been cut off. */
module JsonStreaming {
  import opened JsonText
  import opened SaxEvents
  import opened Text
  import opened PartialJson
  import opened HealingTheorems
  import opened CommonJson
  import opened ChatParser
  import G = JsonGrammar
  import ViablePrefixes

  /** A message cut off inside an object or array: the partial parser takes everything up to the end and gives
      a text that parses; the parser of a complete message throws the exception for partial messages. */
  lemma {:induction false} CutOffJson(input: string, pos: nat, marker: string)
    requires pos <= |input| && Truncated(input[pos..]) && LegalMarker(marker)
    requires Run(START, input[pos..]).open != [] && !MidEscape(Run(START, input[pos..]))
    ensures var (r, next) := JsonAt(input, true, pos, marker);
            next == |input| && r.TookJson? && r.marker == marker && CanParse(r.text)
    ensures JsonAt(input, false, pos, marker) == (PartialException, |input|)
  {
    TruncatedOutcome(input[pos..], marker);
  }

  /** A complete value followed by text that does not start a longer token is taken exactly, blanks after it
      included, and needs no marker; otherwise nothing is taken. */
  lemma {:induction false} WholeJson(v: string, rest: string, isPartial: bool, marker: string) returns (taken: string, next: nat)
    requires Run(START, v) == DONE
    ensures next == |v| + |rest| - |SkipBlanks(rest)| && next <= |v + rest| && taken == (v + rest)[..next]
    ensures JsonAt(v + rest, isPartial, 0, marker) ==
            if StartsLongToken(SkipBlanks(rest)) then (NoJson, 0) else (TookJson(taken, "", ""), next)
  {
    var s, at, r := ValueThenText(v, rest, marker);
    taken, next := s[..at], at;
    JsonAtStart(s, isPartial, marker);
  }

  lemma {:induction false} JsonAtStart(s: string, isPartial: bool, marker: string)
    ensures JsonAt(s, isPartial, 0, marker) == JsonFrom(Outcomes(s, marker), isPartial, 0)
  {
    assert s[0..] == s;
  }

  /** Where no JSON text stands before the error, and the error is not inside a container, nothing is taken. */
  lemma {:induction false} NoJsonThere(input: string, isPartial: bool, pos: nat, marker: string)
    requires pos <= |input| && !G.Padded(input[pos..])
    requires var rest := input[pos..]; var p := ErrorPosition(rest);
             0 <= p <= |rest| && !G.Padded(rest[..p]) && Run(START, rest[..p]).open == []
    ensures JsonAt(input, isPartial, pos, marker) == (NoJson, pos)
  {
    ViablePrefixes.OutcomeExactly(input[pos..], marker);
  }

  /** A message cut off inside an escape that cannot be cut back raises the parse error, and nothing is taken. */
  lemma {:induction false} CutOffInEscape(input: string, isPartial: bool, pos: nat, marker: string)
    requires pos <= |input| && Truncated(input[pos..]) && LegalMarker(marker)
    requires Run(START, input[pos..]).open != [] && MidEscape(Run(START, input[pos..]))
    ensures var rest := input[pos..]; var st := Run(START, rest);
            var p := FindLast(rest, if TopIs(st.open, Arr) then {'[', ','} else {':'});
            var place := p >= 0 && AtValue(Run(START, rest[..p + 1])) && Run(START, rest[..p + 1]).open == st.open;
            !place ==> JsonAt(input, isPartial, pos, marker) == (ParseError, pos)
  {
    hide Outcomes, FindLast, AtValue, Truncated, LegalMarker, MidEscape;
    EscapedOutcome(input[pos..], marker);
  }
}
