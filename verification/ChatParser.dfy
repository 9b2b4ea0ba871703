/** Streaming chat parsing: literals, partial literals and reasoning blocks. */
module ChatParser {
  import CommonJson
  import opened Text
  import opened PartialJson

  // ----- string helpers

  predicate SpaceIn(s: string, from: nat, to: nat)
    requires from <= to <= |s|
  {
    forall i :: from <= i < to ==> IsSpaceC(s[i])
  }

  predicate AllSpace(s: string) { SpaceIn(s, 0, |s|) }

  /** `string_strip`, front and back. */
  function StripFront(s: string): (r: string)
    ensures |r| <= |s| && r == s[|s| - |r|..]
    ensures SpaceIn(s, 0, |s| - |r|) && (r != "" ==> !IsSpaceC(r[0]))
  {
    if s != "" && IsSpaceC(s[0]) then StripFront(s[1..]) else s
  }

  function StripBack(s: string): (r: string)
    ensures |r| <= |s| && r == s[..|r|]
    ensures SpaceIn(s, |r|, |s|) && (r != "" ==> !IsSpaceC(r[|r| - 1]))
  {
    if s != "" && IsSpaceC(s[|s| - 1]) then StripBack(s[..|s| - 1]) else s
  }

  function Strip(s: string): string { StripBack(StripFront(s)) }

  lemma {:induction false} StripFrontIs(s: string, k: nat)
    requires k <= |s| && SpaceIn(s, 0, k) && (k < |s| ==> !IsSpaceC(s[k]))
    ensures StripFront(s) == s[k..]
  {
    var r := StripFront(s);
    assert r != "" ==> r[0] == s[|s| - |r|];
  }

  lemma {:induction false} StripBackIs(s: string, n: nat)
    requires n <= |s| && SpaceIn(s, n, |s|) && (n > 0 ==> !IsSpaceC(s[n - 1]))
    ensures StripBack(s) == s[..n]
  {
    var r := StripBack(s);
    assert r != "" ==> r[|r| - 1] == s[|r| - 1];
  }

  /** The stripped text is the part between the first and the last non-blank. */
  lemma {:induction false} StripIs(str: string, start: nat, end: nat)
    requires start <= end <= |str| && SpaceIn(str, 0, start) && SpaceIn(str, end, |str|)
    requires start < |str| ==> !IsSpaceC(str[start])
    requires end > start ==> !IsSpaceC(str[end - 1])
    ensures Strip(str) == str[start..end]
  {
    StripFrontIs(str, start);
    StripTail(str, start, end);
  }

  method StringStrip(str: string) returns (r: string)
    ensures r == Strip(str)
  {
    var start: nat := 0;
    var end: nat := |str|;
    while start < end && IsSpaceC(str[start])
      invariant start <= end
      invariant SpaceIn(str, 0, start)
    {
      start := start + 1;
    }
    while end > start && IsSpaceC(str[end - 1])
      invariant start <= end <= |str|
      invariant SpaceIn(str, end, |str|)
    {
      end := end - 1;
    }
    StripIs(str, start, end);
    r := str[start..end];
  }

  lemma {:induction false} StripTail(str: string, start: nat, end: nat)
    requires start <= end <= |str| && SpaceIn(str, end, |str|)
    requires end > start ==> !IsSpaceC(str[end - 1])
    ensures StripBack(str[start..]) == str[start..end]
  {
    var s := str[start..];
    forall i | end - start <= i < |s| ensures IsSpaceC(s[i]) { assert s[i] == str[start + i]; }
    StripBackIs(s, end - start);
  }

  /** Start of the longest non-empty suffix of `str` that is a prefix of `stop`, at or after `from`; -1 if none. */
  function PartialStop(str: string, stop: string, from: nat): (p: int)
    requires from <= |str|
    ensures p == -1 || (from <= p < |str| && str[p..] <= stop)
    ensures forall i :: from <= i < |str| && (p < 0 || i < p) ==> !(str[i..] <= stop)
    decreases |str| - from
  {
    if from == |str| then -1
    else if str[from..] <= stop then from
    else PartialStop(str, stop, from + 1)
  }

  /** The last `n` characters start the literal exactly when they are its first `n`, and then end alike. */
  lemma {:induction false} PrefixAtEnd(str: string, stop: string, n: nat)
    requires 0 < n <= |stop| && str != ""
    ensures n <= |str| ==> (str[|str| - n..] <= stop <==> str[|str| - n..] == stop[..n])
    ensures n <= |str| && str[|str| - n..] == stop[..n] ==> stop[n - 1] == str[|str| - 1]
  {
    if n <= |str| {
      var tail := str[|str| - n..];
      assert tail[n - 1] == str[|str| - 1] && stop[..n][n - 1] == stop[n - 1];
    }
  }

  /** `string_find_partial_stop`: tries the prefixes of `stop` from the longest down. */
  method FindPartialStop(str: string, stop: string) returns (p: int)
    ensures p == PartialStop(str, stop, 0)
  {
    if str != "" && stop != "" {
      var last := str[|str| - 1];
      var n := |stop|;
      while n > 0
        invariant 0 <= n <= |stop|
        invariant forall i :: 0 <= i < |str| && |str| - i > n ==> !(str[i..] <= stop)
      {
        PrefixAtEnd(str, stop, n);
        if stop[n - 1] == last && n <= |str| && str[|str| - n..] == stop[..n] {
          return |str| - n;
        }
        n := n - 1;
      }
    }
    return -1;
  }

  // ----- the parser

  datatype ReasoningFormat = FormatNone | FormatAuto | FormatDeepseekLegacy | FormatDeepseek | FormatGranite

  datatype Syntax = Syntax(format: ReasoningFormat, reasoningInContent: bool, thinkingForcedOpen: bool)

  /** What `try_find_literal` gives: the text before the literal and where the literal ends. */
  datatype Found = NotFound | FoundAt(prelude: string, begin: nat, end: nat)

  function FindLiteral(input: string, isPartial: bool, pos: nat, literal: string): (res: Found)
    requires pos <= |input|
    ensures res.FoundAt? ==> pos <= res.begin <= res.end <= |input| && res.prelude == input[pos..res.begin]
  {
    var idx := Find(input, literal, pos);
    if idx >= 0 then FoundAt(input[pos..idx], idx, idx + |literal|)
    else if isPartial then
      var p := PartialStop(input, literal, 0);
      if p >= pos then FoundAt(input[pos..p], p, |input|) else NotFound
    else NotFound
  }

  function SkipSpaces(input: string, pos: nat): (p: nat)
    requires pos <= |input|
    ensures pos <= p <= |input|
    decreases |input| - pos
  {
    if pos < |input| && IsSpaceC(input[pos]) then SkipSpaces(input, pos + 1) else pos
  }

  /** The marker is drawn until one is not in the input. */
  method DrawMarker(input: string, draws: seq<string>) returns (marker: string)
    requires exists k :: 0 <= k < |draws| && !Occurs(input, draws[k])
    ensures marker in draws && !Occurs(input, marker)
    ensures exists k :: 0 <= k < |draws| && marker == draws[k] && forall i :: 0 <= i < k ==> Occurs(input, draws[i])
  {
    var i := 0;
    while Find(input, draws[i], 0) >= 0
      invariant 0 <= i < |draws|
      invariant forall k :: 0 <= k < i ==> Occurs(input, draws[k])
      invariant exists k :: i <= k < |draws| && !Occurs(input, draws[k])
      decreases |draws| - i
    {
      assert OccursAt(input, draws[i], Find(input, draws[i], 0));
      i := i + 1;
    }
    marker := draws[i];
  }

  /** What `try_consume_json` gives: nothing, the parsed text with its markers, or one of two exceptions. */
  datatype JsonTaken = NoJson | TookJson(text: string, marker: string, dumpMarker: string) | ParseError | PartialException

  /** The answer at a position and the position afterwards. */
  function JsonAt(input: string, isPartial: bool, pos: nat, marker: string): (JsonTaken, nat)
    requires pos <= |input|
  {
    JsonFrom(CommonJson.Outcomes(input[pos..], marker), isPartial, pos)
  }

  function JsonFrom(out: CommonJson.Outcome, isPartial: bool, pos: nat): (JsonTaken, nat) {
    match out
    case NotParsed => (NoJson, pos)
    case Thrown => (ParseError, pos)
    case Parsed(text, upTo, used, dumpMarker) =>
      if used == "" || isPartial then (TookJson(text, used, dumpMarker), pos + upTo) else (PartialException, pos + upTo)
  }

  class MsgParser {
    const input: string
    const isPartial: bool
    const syntax: Syntax
    const healingMarker: string
    var pos: nat
    var content: string
    var reasoning: string

    ghost predicate Valid()
      reads this
    {
      pos <= |input|
    }

    constructor (input: string, isPartial: bool, syntax: Syntax, draws: seq<string>)
      requires exists k :: 0 <= k < |draws| && !Occurs(input, draws[k])
      ensures Valid() && pos == 0 && content == "" && reasoning == ""
      ensures this.input == input && this.isPartial == isPartial && this.syntax == syntax
      ensures !Occurs(input, healingMarker)
    {
      this.input := input;
      this.isPartial := isPartial;
      this.syntax := syntax;
      var marker := DrawMarker(input, draws);
      healingMarker := marker;
      pos, content, reasoning := 0, "", "";
    }

    method TryConsumeJson() returns (r: JsonTaken)
      requires Valid()
      modifies this`pos
      ensures Valid() && (r, pos) == JsonAt(input, isPartial, old(pos), healingMarker)
    {
      var rest := input[pos..];
      CommonJson.OutcomeInside(rest, healingMarker);
      var out := CommonJson.CommonJsonParse(rest, healingMarker);
      r := TakeJson(out);
    }

    /** Move past what was parsed; a healed text is an exception unless the message is partial. */
    method TakeJson(out: CommonJson.Outcome) returns (r: JsonTaken)
      requires Valid() && (out.Parsed? ==> pos + out.upTo <= |input|)
      modifies this`pos
      ensures Valid() && (r, pos) == JsonFrom(out, isPartial, old(pos))
    {
      match out
      case NotParsed => return NoJson;
      case Thrown => return ParseError;
      case Parsed(text, upTo, used, dumpMarker) =>
        pos := pos + upTo;
        if used != "" && !isPartial {
          return PartialException;
        }
        r := TookJson(text, used, dumpMarker);
    }

    method TryConsumeLiteral(literal: string) returns (ok: bool)
      requires Valid()
      modifies this`pos
      ensures Valid()
      ensures ok <==> literal <= input[old(pos)..]
      ensures pos == if ok then old(pos) + |literal| else old(pos)
    {
      var p := pos;
      var i := 0;
      while i < |literal|
        invariant 0 <= i <= |literal| && p == pos + i <= |input|
        invariant literal[..i] == input[pos..p]
      {
        if p >= |input| {
          return false;
        }
        if input[p] != literal[i] {
          assert input[pos..][i] != literal[i];
          return false;
        }
        assert literal[..i + 1] == literal[..i] + [literal[i]];
        assert input[pos..p + 1] == input[pos..p] + [input[p]];
        p := p + 1;
        i := i + 1;
      }
      assert input[pos..][..|literal|] == input[pos..p] == literal[..|literal|] == literal;
      pos := p;
      return true;
    }

    method TryFindLiteral(literal: string) returns (res: Found)
      requires Valid()
      modifies this`pos
      ensures Valid()
      ensures res == FindLiteral(input, isPartial, old(pos), literal)
      ensures pos == if res.FoundAt? then res.end else old(pos)
    {
      var idx := Find(input, literal, pos);
      if idx >= 0 {
        res := FoundAt(input[pos..idx], idx, idx + |literal|);
        pos := idx + |literal|;
        return;
      }
      if isPartial {
        idx := FindPartialStop(input, literal);
        if idx >= pos {
          res := FoundAt(input[pos..idx], idx, |input|);
          pos := |input|;
          return;
        }
      }
      return NotFound;
    }

    method ConsumeSpaces() returns (consumed: bool)
      requires Valid()
      modifies this`pos
      ensures Valid() && pos == SkipSpaces(input, old(pos)) && (consumed <==> pos > old(pos))
    {
      consumed := false;
      while pos < |input| && IsSpaceC(input[pos])
        invariant Valid() && old(pos) <= pos && SkipSpaces(input, pos) == SkipSpaces(input, old(pos))
        invariant consumed <==> pos > old(pos)
        decreases |input| - pos
      {
        pos := pos + 1;
        consumed := true;
      }
    }

    method ConsumeRest() returns (rest: string)
      requires Valid()
      modifies this`pos
      ensures Valid() && rest == input[old(pos)..] && pos == |input|
    {
      rest := input[pos..];
      pos := |input|;
    }

    method ShowReasoning(stripped: string, closed: bool, startThink: string, endThink: string)
      modifies this`content, this`reasoning
      ensures reasoning == old(reasoning) + ReasoningShown(syntax, stripped)
      ensures content == old(content) + ContentShown(syntax, stripped, closed, startThink, endThink)
    {
      if stripped == "" {
        return;
      }
      if syntax.reasoningInContent {
        content := content + OpenTag(syntax, startThink);
        content := content + stripped;
        content := content + if closed then CloseTag(syntax, endThink) else "";
        Joined(old(content), OpenTag(syntax, startThink), stripped, if closed then CloseTag(syntax, endThink) else "");
      } else {
        reasoning := reasoning + stripped;
      }
    }

    method HandleReasoning(text: string, closed: bool, startThink: string, endThink: string)
      modifies this`content, this`reasoning
      ensures reasoning == old(reasoning) + ReasoningShown(syntax, Strip(text))
      ensures content == old(content) + ContentShown(syntax, Strip(text), closed, startThink, endThink)
    {
      var stripped := StringStrip(text);
      ShowReasoning(stripped, closed, startThink, endThink);
    }

    /** What follows the search for the closing tag, which began at `from`. */
    method EndReasoning(res: Found, from: nat, startThink: string, endThink: string)
      requires Valid() && from <= |input| && pos == (if res.FoundAt? then res.end else from)
      modifies this
      ensures var r := ReasoningGiven(input, isPartial, from, res);
              && pos == r.pos <= |input|
              && reasoning == old(reasoning) + ReasoningShown(syntax, r.text)
              && content == old(content) + ContentShown(syntax, r.text, r.closed, startThink, endThink)
    {
      if res.FoundAt? {
        HandleReasoning(res.prelude, true, startThink, endThink);
        var _ := ConsumeSpaces();
        return;
      }
      var rest := ConsumeRest();
      HandleRest(rest, startThink, endThink);
    }

    method HandleRest(rest: string, startThink: string, endThink: string)
      modifies this`content, this`reasoning
      ensures reasoning == old(reasoning) + ReasoningShown(syntax, Strip(rest))
      ensures content == old(content) + ContentShown(syntax, Strip(rest), !isPartial, startThink, endThink)
    {
      if rest != "" {
        HandleReasoning(rest, !isPartial, startThink, endThink);
      } else {
        NothingShown(syntax, reasoning, content, !isPartial, startThink, endThink);
      }
    }

    /** What follows the opening tag. */
    method FinishReasoning(startThink: string, endThink: string)
      requires Valid()
      modifies this
      ensures var r := ReasoningFrom(input, isPartial, old(pos), endThink);
              && pos == r.pos <= |input|
              && reasoning == old(reasoning) + ReasoningShown(syntax, r.text)
              && content == old(content) + ContentShown(syntax, r.text, r.closed, startThink, endThink)
    {
      var from := pos;
      var res := TryFindLiteral(endThink);
      EndReasoning(res, from, startThink, endThink);
    }

    method TryParseReasoning(startThink: string, endThink: string) returns (parsed: bool)
      requires Valid()
      modifies this
      ensures Valid()
      ensures var r := ReasoningAt(input, isPartial, syntax, old(pos), startThink, endThink);
              && parsed == r.began && pos == r.pos
              && reasoning == (if syntax.reasoningInContent then old(reasoning) else old(reasoning) + r.text)
              && content == (if !syntax.reasoningInContent || r.text == "" then old(content)
                             else if syntax.format == FormatDeepseek then old(content) + "<think>" + r.text + (if r.closed then "</think>" else "")
                             else old(content) + startThink + r.text + (if r.closed then endThink else ""))
    {
      if syntax.format != FormatNone {
        var began := syntax.thinkingForcedOpen;
        if !began {
          began := TryConsumeLiteral(startThink);
        }
        if began {
          ghost var r := ReasoningFrom(input, isPartial, pos, endThink);
          Joined(content, OpenTag(syntax, startThink), r.text, if r.closed then CloseTag(syntax, endThink) else "");
          FinishReasoning(startThink, endThink);
          return true;
        }
      }
      return false;
    }
  }

  function OpenTag(syntax: Syntax, startThink: string): string {
    if syntax.format == FormatDeepseek then "<think>" else startThink
  }

  function CloseTag(syntax: Syntax, endThink: string): string {
    if syntax.format == FormatDeepseek then "</think>" else endThink
  }

  function ReasoningShown(syntax: Syntax, text: string): string {
    if syntax.reasoningInContent then "" else text
  }

  /** What a reasoning block adds to the content when it is shown there. */
  function ContentShown(syntax: Syntax, text: string, closed: bool, startThink: string, endThink: string): string {
    if !syntax.reasoningInContent || text == "" then ""
    else (OpenTag(syntax, startThink) + text) + if closed then CloseTag(syntax, endThink) else ""
  }

  lemma {:induction false} NothingShown(syntax: Syntax, shown: string, content: string, closed: bool, startThink: string, endThink: string)
    ensures shown + ReasoningShown(syntax, Strip("")) == shown
    ensures content + ContentShown(syntax, Strip(""), closed, startThink, endThink) == content
  {
    assert Strip("") == "";
  }

  lemma {:induction false} Joined(a: string, b: string, c: string, d: string)
    ensures ((a + b) + c) + d == a + ((b + c) + d)
  {
  }

  /** The stripped reasoning text, whether its end was seen, where parsing goes on, and whether a block was began. */
  datatype Reasoning = Reasoning(text: string, closed: bool, pos: nat, began: bool)

  function ReasoningGiven(input: string, isPartial: bool, from: nat, res: Found): Reasoning
    requires from <= |input| && (res.FoundAt? ==> res.end <= |input|)
  {
    match res
    case FoundAt(prelude, _, end) => Reasoning(Strip(prelude), true, SkipSpaces(input, end), true)
    case NotFound => Reasoning(Strip(input[from..]), !isPartial, |input|, true)
  }

  function ReasoningFrom(input: string, isPartial: bool, from: nat, endThink: string): Reasoning
    requires from <= |input|
  {
    ReasoningGiven(input, isPartial, from, FindLiteral(input, isPartial, from, endThink))
  }

  function ReasoningAt(input: string, isPartial: bool, syntax: Syntax, pos: nat, startThink: string, endThink: string): Reasoning
    requires pos <= |input|
  {
    if syntax.format == FormatNone then Reasoning("", false, pos, false)
    else if !syntax.thinkingForcedOpen && !(startThink <= input[pos..]) then Reasoning("", false, pos, false)
    else
      var from := if syntax.thinkingForcedOpen then pos else pos + |startThink|;
      ReasoningFrom(input, isPartial, from, endThink)
  }
}
