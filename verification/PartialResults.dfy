/** From the input to the flag: when `try_consume_json_with_dumped_args` reports a result as partial. */
module PartialResults {
  import opened CleanTheorems
  import opened CommonJson
  import opened DumpRead
  import opened HealedCut
  import opened HealedDump
  import opened HealedRead
  import opened HealingTheorems
  import opened JsonClean
  import opened JsonRead
  import opened JsonText
  import opened JsonValue
  import opened PartialJson
  import opened SaxEvents
  import opened Text

  // ----- when cleaning throws

  /** The loop over members, or over items, breaks here. */
  predicate Breaks(cfg: Config, x: Member) {
    Occurs(x.key, cfg.parserMarker) || (x.value.Str? && Occurs(x.value.s, cfg.parserMarker))
  }

  predicate ItemBreaks(cfg: Config, j: Json) { j.Str? && Occurs(j.s, cfg.parserMarker) }

  /** Cleaning comes to a content path that holds no string: not inside a dumped argument, and not behind a
      key or string with the parser's marker in the same container. */
  predicate Misused(cfg: Config, j: Json, path: Path)
    decreases j, 0
  {
    && path !in cfg.argsPaths
    && if path in cfg.contentPaths then !j.Str?
       else match j
         case Object(members) =>
           exists i :: 0 <= i < |members| && MemberMisused(cfg, members[i], path) && forall k :: 0 <= k < i ==> !Breaks(cfg, members[k])
         case Array(items) =>
           exists i :: 0 <= i < |items| && ItemMisused(cfg, items[i], path) && forall k :: 0 <= k < i ==> !ItemBreaks(cfg, items[k])
         case _ => false
  }

  predicate MemberMisused(cfg: Config, x: Member, path: Path)
    decreases x, 1
  {
    !Breaks(cfg, x) && !x.value.Str? && Misused(cfg, x.value, path + [x.key])
  }

  predicate ItemMisused(cfg: Config, j: Json, path: Path)
    decreases j, 1
  {
    !ItemBreaks(cfg, j) && Misused(cfg, j, path)
  }

  predicate AnyMisused(cfg: Config, members: seq<Member>, path: Path) {
    exists i :: 0 <= i < |members| && MemberMisused(cfg, members[i], path) && forall k :: 0 <= k < i ==> !Breaks(cfg, members[k])
  }

  predicate AnyItemMisused(cfg: Config, items: seq<Json>, path: Path) {
    exists i :: 0 <= i < |items| && ItemMisused(cfg, items[i], path) && forall k :: 0 <= k < i ==> !ItemBreaks(cfg, items[k])
  }

  lemma {:induction false} MisusedFirst(cfg: Config, members: seq<Member>, path: Path)
    requires members != []
    ensures AnyMisused(cfg, members, path) <==>
            !Breaks(cfg, members[0]) && (MemberMisused(cfg, members[0], path) || AnyMisused(cfg, members[1..], path))
  {
    hide Breaks, MemberMisused;
    var rest := members[1..];
    assert forall k :: 0 <= k < |rest| ==> rest[k] == members[k + 1];
    NotBroken(cfg, members[0], path);
    if AnyMisused(cfg, members, path) {
      var i :| 0 <= i < |members| && MemberMisused(cfg, members[i], path) && forall k :: 0 <= k < i ==> !Breaks(cfg, members[k]);
      if i > 0 { assert MemberMisused(cfg, rest[i - 1], path) && forall k :: 0 <= k < i - 1 ==> !Breaks(cfg, rest[k]); }
    }
    if !Breaks(cfg, members[0]) && AnyMisused(cfg, rest, path) {
      var i :| 0 <= i < |rest| && MemberMisused(cfg, rest[i], path) && forall k :: 0 <= k < i ==> !Breaks(cfg, rest[k]);
      assert MemberMisused(cfg, members[i + 1], path);
      forall k | 0 <= k < i + 1 ensures !Breaks(cfg, members[k]) {
        if k > 0 { assert members[k] == rest[k - 1]; }
      }
    }
  }

  lemma {:induction false} NotBroken(cfg: Config, x: Member, path: Path)
    ensures MemberMisused(cfg, x, path) ==> !Breaks(cfg, x)
  {
  }

  lemma {:induction false} ItemMisusedFirst(cfg: Config, items: seq<Json>, path: Path)
    requires items != []
    ensures AnyItemMisused(cfg, items, path) <==>
            !ItemBreaks(cfg, items[0]) && (ItemMisused(cfg, items[0], path) || AnyItemMisused(cfg, items[1..], path))
  {
    hide ItemBreaks, ItemMisused;
    var rest := items[1..];
    assert forall k :: 0 <= k < |rest| ==> rest[k] == items[k + 1];
    ItemNotBroken(cfg, items[0], path);
    if AnyItemMisused(cfg, items, path) {
      var i :| 0 <= i < |items| && ItemMisused(cfg, items[i], path) && forall k :: 0 <= k < i ==> !ItemBreaks(cfg, items[k]);
      if i > 0 { assert ItemMisused(cfg, rest[i - 1], path) && forall k :: 0 <= k < i - 1 ==> !ItemBreaks(cfg, rest[k]); }
    }
    if !ItemBreaks(cfg, items[0]) && AnyItemMisused(cfg, rest, path) {
      var i :| 0 <= i < |rest| && ItemMisused(cfg, rest[i], path) && forall k :: 0 <= k < i ==> !ItemBreaks(cfg, rest[k]);
      assert ItemMisused(cfg, items[i + 1], path);
      forall k | 0 <= k < i + 1 ensures !ItemBreaks(cfg, items[k]) {
        if k > 0 { assert items[k] == rest[k - 1]; }
      }
    }
  }

  lemma {:induction false} ItemNotBroken(cfg: Config, j: Json, path: Path)
    ensures ItemMisused(cfg, j, path) ==> !ItemBreaks(cfg, j)
  {
  }

  /** Cleaning throws exactly when it comes to a content path that holds no string. */
  lemma {:induction false} ThrowsExactly(cfg: Config, j: Json, path: Path)
    ensures Clean(cfg, j, path).Throws? <==> Misused(cfg, j, path)
    decreases j, 1
  {
    if path !in cfg.argsPaths && path !in cfg.contentPaths {
      match j {
        case Object(members) => MembersThrow(cfg, members, path, []);
        case Array(items) => ItemsThrow(cfg, items, path, []);
        case _ =>
      }
    }
  }

  lemma {:induction false} MembersThrow(cfg: Config, members: seq<Member>, path: Path, done: seq<Member>)
    ensures CleanMembers(cfg, members, path, done).Throws? <==> AnyMisused(cfg, members, path)
    decreases members, 0
  {
    if members != [] {
      var x, rest := members[0], members[1..];
      MisusedFirst(cfg, members, path);
      ThrowsExactly(cfg, x.value, path + [x.key]);
      var v := Clean(cfg, x.value, path + [x.key]);
      MembersThrow(cfg, rest, path, Put(done, x.key, if x.value.Str? || v.Throws? then x.value else v.value));
    }
  }

  lemma {:induction false} ItemsThrow(cfg: Config, items: seq<Json>, path: Path, done: seq<Json>)
    ensures CleanItems(cfg, items, path, done).Throws? <==> AnyItemMisused(cfg, items, path)
    decreases items, 0
  {
    if items != [] {
      var x, rest := items[0], items[1..];
      ItemMisusedFirst(cfg, items, path);
      ThrowsExactly(cfg, x, path);
      var v := Clean(cfg, x, path);
      ItemsThrow(cfg, rest, path, done + [if v.Throws? then x else v.value]);
    }
  }

  /** The whole call throws exactly when, past the two early returns, a content path that holds no string is
      come to. */
  lemma {:induction false} ConsumeThrowsExactly(cfg: Config, j: Json)
    ensures Consume(cfg, j).Throws? <==> (cfg.marker != "" || cfg.argsPaths != []) && Misused(cfg, j, [])
  {
    ThrowsExactly(cfg, j, []);
  }

  // ----- healed texts

  /** The configuration of a call whose JSON was healed with the parser's own marker. */
  predicate HealedConfig(cfg: Config, m: string, dumpMarker: string) {
    cfg.isPartial && cfg.parserMarker == m && cfg.marker == m && cfg.dumpMarker == dumpMarker
  }

  lemma {:induction false} LeadsAreLeads(b: Branch)
    ensures IsLead(Lead(b))
  {
  }

  lemma {:induction false} HealedFits(cfg: Config, b: Branch, m: string)
    requires HealedConfig(cfg, m, Lead(b) + m) && PlainMarker(m)
    ensures ConfigFits(cfg, Lead(b)) && Unescaped(m)
  {
  }

  lemma {:induction false} ConsumeIsClean(cfg: Config, v: Json)
    requires cfg.marker != ""
    ensures Consume(cfg, v) == Clean(cfg, v, [])
  {
  }

  /** Where the marker was appended to a string: wherever it may start, the value is cleaned and flagged. */
  lemma {:induction false} BareIsPartial(cfg: Config, b: Branch, r: Reader, m: string) returns (v: Json)
    requires FitsReader(r) && Starts(b, r.st) && r.frames != [] && NoRepeats(r) && PlainMarker(m) && !Occurs(Rendered(r), m)
    requires Lead(b) == "" && HealedConfig(cfg, m, Lead(b) + m)
    ensures v == HealedValue(b, r, m) && Rightmost(m, v)
    ensures var c := Consume(cfg, v); c.Cleaned? ==> Free(m, c.value) && c.found
  {
    hide FitsReader, Starts, Rendered, NoRepeats, HealedValue, Free, Rightmost, Clean, Consume;
    v := HealedValue(b, r, m);
    HealedPlace(b, r, m);
    HealedIsContainer(b, r, m);
    HealedFits(cfg, b, m);
    ConsumeIsClean(cfg, v);
    CleanBare(cfg, v, []);
  }

  /** Where a branch wrote something before the marker. */
  lemma {:induction false} LedIsPartial(cfg: Config, b: Branch, r: Reader, m: string) returns (v: Json)
    requires FitsReader(r) && Starts(b, r.st) && r.frames != [] && NoRepeats(r) && PlainMarker(m) && !Occurs(Rendered(r), m)
    requires Lead(b) != "" && HealedConfig(cfg, m, Lead(b) + m)
    ensures v == HealedValue(b, r, m) && Rightmost(m, v)
    ensures var c := Consume(cfg, v); c.Cleaned? ==> Free(m, c.value) && c.found
  {
    hide FitsReader, Starts, Rendered, NoRepeats, HealedValue, Dump, Straddles, Occurs, HealedAt, BeforeJoin, FirstAt, Rightmost, Free, Consume;
    v := ApartHealed(b, r, m);
    LeadsAreLeads(b);
    HealedFits(cfg, b, m);
    PartialExactlyWhenHealed(cfg, Lead(b), v);
  }

  /** Any text that heals, with a marker that is not in what was read: the value it reads as once healed is
      cleaned of the marker and flagged partial. */
  lemma {:induction false} HealedTextIsPartial(cfg: Config, str: string, m: string) returns (h: Healing, v: Json)
    requires Heals(str, m) && PlainMarker(m) && NoRepeats(Kept(str, m)) && !Occurs(Rendered(Kept(str, m)), m)
    requires HealedConfig(cfg, m, Heal(str, StackAfter(str), m).dumpMarker)
    ensures h == Heal(str, StackAfter(str), m) && v == ReadText(h.Text())
    ensures Rightmost(m, v)
    ensures var r := Consume(cfg, v);
            (r.Throws? <==> Misused(cfg, v, [])) && (r.Cleaned? ==> Free(m, r.value) && r.found)
  {
    hide Starts, FitsReader, Rendered, NoRepeats, HealedValue, Occurs, Rightmost, Free, Consume, Lead, Misused;
    var b: Branch, r: Reader;
    h, b, r := HealedTextReads(str, m);
    if Lead(b) == "" { v := BareIsPartial(cfg, b, r, m); } else { v := LedIsPartial(cfg, b, r, m); }
    ConsumeThrowsExactly(cfg, v);
  }

  // ----- texts that a dump is cut to

  lemma {:induction false} RestOfAccepted(s: string, k: nat)
    requires CanParse(s) && k <= |s|
    ensures Accept(Run(Run(START, s[..k]), s[k..])) && !Lost(Run(START, s[..k]))
  {
    assert s == s[..k] + s[k..];
    RunConcat(START, s[..k], s[k..]);
    if Lost(Run(START, s[..k])) { LostStays(Run(START, s[..k]), s[k..]); }
  }

  /** With nothing open a value has ended, or reading is lost. */
  predicate OverWhenClosed(st: State) { st.open == [] ==> st.mode == After || Lost(st) }

  lemma {:induction false} OverStays(st: State, s: string)
    requires Fits(st) && OverWhenClosed(st)
    ensures OverWhenClosed(Run(st, s))
    decreases |s|
  {
    if s != "" {
      StepFits(st, s[0]);
      OverStep(st, s[0]);
      OverStays(Step(st, s[0]), s[1..]);
    }
  }

  lemma {:induction false} OverStep(st: State, c: char)
    requires Fits(st) && OverWhenClosed(st)
    ensures OverWhenClosed(Step(st, c))
  {
  }

  /** After a complete value only blanks are accepted. */
  lemma {:induction false} NothingAfter(s: string)
    requires Accept(Run(DONE, s))
    ensures forall i :: 0 <= i < |s| ==> IsSpace(s[i])
    decreases |s|
  {
    if s != "" {
      if !IsSpace(s[0]) { LostStays(Step(DONE, s[0]), s[1..]); }
      NothingAfter(s[1..]);
    }
  }

  lemma {:induction false} ContainerEnds(j: Json)
    requires j.Array? || j.Object?
    ensures Dump(j) != "" && (Dump(j)[0] == '[' || Dump(j)[0] == '{') && !IsSpace(Dump(j)[|Dump(j)| - 1])
  {
  }

  /** Every proper, non-empty part at the front of a dumped object or array stops inside it. */
  lemma {:induction false} CutDumpInside(j: Json, k: nat)
    requires Dumpable(j) && (j.Array? || j.Object?) && 0 < k < |Dump(j)|
    ensures Run(START, Dump(j)[..k]).open != [] && !Lost(Run(START, Dump(j)[..k]))
  {
    var d := Dump(j);
    DumpParses(j);
    ContainerEnds(j);
    RestOfAccepted(d, k);
    var first := [d[0]];
    var st := Run(START, d[..k]);
    RunOne(START, d[0]);
    assert d[..k] == first + d[1..k];
    RunConcat(START, first, d[1..k]);
    StepFits(START, d[0]);
    OverStays(Step(START, d[0]), d[1..k]);
    assert d[k..][|d| - k - 1] == d[|d| - 1];
    if st.open == [] { NothingAfter(d[k..]); }
  }

  lemma {:induction false} TruncatedParsed(s: string, m: string)
    requires Truncated(s) && Run(START, s).open != [] && LegalMarker(m) && Outcomes(s, m).Parsed?
    ensures Heals(s, m)
    ensures var h := Heal(s, StackAfter(s), m); Outcomes(s, m) == Parsed(h.Text(), |s|, m, h.dumpMarker)
  {
    TruncatedIsHealed(s, m);
  }

  lemma {:induction false} NothingParsed(m: string)
    ensures !Outcomes("", m).Parsed?
  {
    assert !CanParse("");
    StackMeansText("");
    assert ""[..ErrorPosition("")] == "";
    MirrorShape(Settled(START));
    assert StackAfter("") == [];
  }

  /** What is passed on to cleaning; the marker is of digits and not in the text, as the parser draws it. */
  predicate CallFits(cfg: Config, s: string, m: string) {
    && Outcomes(s, m).Parsed? && AllDigits(m) && !Occurs(s, m)
    && cfg.parserMarker == m && cfg.marker == Outcomes(s, m).marker && cfg.dumpMarker == Outcomes(s, m).dumpMarker
    && (cfg.marker != "" ==> cfg.isPartial)
  }

  lemma {:induction false} WholeDump(cfg: Config, j: Json, m: string)
    requires Readable(j) && (j.Array? || j.Object?) && CallFits(cfg, Dump(j), m)
    ensures Outcomes(Dump(j), m) == Parsed(Dump(j), |Dump(j)|, "", "") && ReadText(Dump(j)) == j
    ensures Rightmost(m, j)
    ensures var r := Consume(cfg, j);
            (r.Throws? <==> cfg.argsPaths != [] && Misused(cfg, j, [])) && (r.Cleaned? ==> Free(m, r.value) && !r.found)
  {
    hide Misused;
    ConsumeThrowsExactly(cfg, j);
    DumpReadBack(j);
    DigitsArePlain(m);
    DumpFree(m, j);
    PartialExactlyWhenHealed(cfg, "", j);
  }

  lemma {:induction false} NotInKeptDump(j: Json, k: nat, m: string) returns (s: string)
    requires Readable(j) && k <= |Dump(j)| && Heals(Dump(j)[..k], m) && !Occurs(Dump(j)[..k], m)
    ensures s == Dump(j)[..k] && NoRepeats(Kept(s, m)) && !Occurs(Rendered(Kept(s, m)), m)
  {
    hide Rendered, NoRepeats, Dump, Occurs;
    var h: Healing;
    s, h := KeptOfDump(j, k, m);
    NotInPrefix(h.kept, s, m);
  }

  lemma {:induction false} CutDump(cfg: Config, j: Json, k: nat, m: string) returns (s: string, v: Json)
    requires Readable(j) && (j.Array? || j.Object?) && 0 < k < |Dump(j)| && CallFits(cfg, Dump(j)[..k], m)
    ensures s == Dump(j)[..k] && v == ReadText(Outcomes(s, m).text) && Outcomes(s, m).upTo == k
    ensures Rightmost(m, v)
    ensures var r := Consume(cfg, v);
            (r.Throws? <==> Misused(cfg, v, [])) && (r.Cleaned? ==> Free(m, r.value) && r.found)
  {
    hide Dump, Rendered, NoRepeats, Occurs, Straddles, Rightmost, Free, Consume, Outcomes, Misused;
    s := Dump(j)[..k];
    CutDumpInside(j, k);
    NotAcceptedInside(s);
    DigitsArePlain(m);
    TruncatedParsed(s, m);
    var same := NotInKeptDump(j, k, m);
    var h: Healing;
    h, v := HealedTextIsPartial(cfg, s, m);
  }

  lemma {:induction false} NotAcceptedInside(s: string)
    requires Run(START, s).open != [] && !Lost(Run(START, s))
    ensures Truncated(s)
  {
  }

  /** From the input to the flag.  The input is any part at the front of a dumped object or array; whenever it
      is parsed, all of it is consumed, the result has the parser's marker nowhere, and the result is flagged
      partial exactly when the input is not the whole dump. */
  lemma {:induction false} PartialExactlyWhenCut(cfg: Config, j: Json, k: nat, m: string) returns (s: string, v: Json)
    requires Readable(j) && (j.Array? || j.Object?) && k <= |Dump(j)| && CallFits(cfg, Dump(j)[..k], m)
    ensures s == Dump(j)[..k] && v == ReadText(Outcomes(s, m).text) && Outcomes(s, m).upTo == k
    ensures Rightmost(m, v) && (k == |Dump(j)| ==> v == j)
    ensures var r := Consume(cfg, v);
            && (r.Throws? <==> (k < |Dump(j)| || cfg.argsPaths != []) && Misused(cfg, v, []))
            && (r.Cleaned? ==> Free(m, r.value) && (r.found <==> k < |Dump(j)|))
  {
    hide Misused;
    s := Dump(j)[..k];
    if k == 0 {
      assert s == "";
      NothingParsed(m);
    }
    if k < |Dump(j)| {
      s, v := CutDump(cfg, j, k, m);
    } else {
      assert s == Dump(j);
      WholeDump(cfg, j, m);
      v := j;
    }
  }

  // ----- complete values: exactly when they are flagged

  /** Cleaning meets the parser's marker, in an unhealed value: in a key, in a string that is a member or an
      item, or at a content path, but not inside a dumped argument. */
  predicate Seen(cfg: Config, j: Json, path: Path)
    decreases j, 0
  {
    && path !in cfg.argsPaths
    && (path in cfg.contentPaths ||
        match j
        case Object(members) => exists i :: 0 <= i < |members| && MemberSeen(cfg, members[i], path)
        case Array(items) => exists i :: 0 <= i < |items| && ItemSeen(cfg, items[i], path)
        case _ => false)
  }

  predicate MemberSeen(cfg: Config, x: Member, path: Path)
    decreases x, 1
  {
    Occurs(x.key, cfg.parserMarker) ||
    (if x.value.Str? then Occurs(x.value.s, cfg.parserMarker) else Seen(cfg, x.value, path + [x.key]))
  }

  predicate ItemSeen(cfg: Config, j: Json, path: Path)
    decreases j, 1
  {
    (j.Str? && Occurs(j.s, cfg.parserMarker)) || Seen(cfg, j, path)
  }

  lemma {:induction false} SeenExactly(cfg: Config, j: Json, path: Path)
    requires cfg.marker == ""
    ensures var r := Clean(cfg, j, path); r.Cleaned? ==> (r.found <==> Seen(cfg, j, path))
    decreases j, 1
  {
    if path !in cfg.argsPaths && path !in cfg.contentPaths {
      match j {
        case Object(members) => SeenMembers(cfg, members, path, []);
        case Array(items) => SeenItems(cfg, items, path, []);
        case _ =>
      }
    }
  }

  lemma {:induction false} SeenMembers(cfg: Config, members: seq<Member>, path: Path, done: seq<Member>)
    requires cfg.marker == ""
    ensures var r := CleanMembers(cfg, members, path, done);
            r.Cleaned? ==> (r.found <==> exists i :: 0 <= i < |members| && MemberSeen(cfg, members[i], path))
    decreases members, 0
  {
    if members != [] {
      var x, rest := members[0], members[1..];
      if !x.value.Str? { SeenExactly(cfg, x.value, path + [x.key]); }
      var v := Clean(cfg, x.value, path + [x.key]);
      SeenMembers(cfg, rest, path, Put(done, x.key, if x.value.Str? || v.Throws? then x.value else v.value));
      AnyMember(cfg, x, rest, path);
      assert members == [x] + rest;
    }
  }

  lemma {:induction false} AnyMember(cfg: Config, x: Member, rest: seq<Member>, path: Path)
    ensures (exists i :: 0 <= i < |[x] + rest| && MemberSeen(cfg, ([x] + rest)[i], path)) <==>
            MemberSeen(cfg, x, path) || exists i :: 0 <= i < |rest| && MemberSeen(cfg, rest[i], path)
  {
    var all := [x] + rest;
    assert all[0] == x && forall i :: 0 <= i < |rest| ==> all[i + 1] == rest[i];
    if i :| 0 <= i < |rest| && MemberSeen(cfg, rest[i], path) { assert MemberSeen(cfg, all[i + 1], path); }
    if i :| 0 <= i < |all| && MemberSeen(cfg, all[i], path) { assert i > 0 ==> all[i] == rest[i - 1]; }
  }

  lemma {:induction false} SeenItems(cfg: Config, items: seq<Json>, path: Path, done: seq<Json>)
    requires cfg.marker == ""
    ensures var r := CleanItems(cfg, items, path, done);
            r.Cleaned? ==> (r.found <==> exists i :: 0 <= i < |items| && ItemSeen(cfg, items[i], path))
    decreases items, 0
  {
    if items != [] {
      var x, rest := items[0], items[1..];
      SeenExactly(cfg, x, path);
      var v := Clean(cfg, x, path);
      SeenItems(cfg, rest, path, done + [if v.Throws? then x else v.value]);
      AnyItem(cfg, x, rest, path);
      assert items == [x] + rest;
    }
  }

  lemma {:induction false} AnyItem(cfg: Config, x: Json, rest: seq<Json>, path: Path)
    ensures (exists i :: 0 <= i < |[x] + rest| && ItemSeen(cfg, ([x] + rest)[i], path)) <==>
            ItemSeen(cfg, x, path) || exists i :: 0 <= i < |rest| && ItemSeen(cfg, rest[i], path)
  {
    var all := [x] + rest;
    assert all[0] == x && forall i :: 0 <= i < |rest| ==> all[i + 1] == rest[i];
    if i :| 0 <= i < |rest| && ItemSeen(cfg, rest[i], path) { assert ItemSeen(cfg, all[i + 1], path); }
    if i :| 0 <= i < |all| && ItemSeen(cfg, all[i], path) { assert i > 0 ==> all[i] == rest[i - 1]; }
  }

  /** A complete text of any value: its result is flagged partial exactly when there are argument paths, the
      whole is not one of them, and cleaning meets the marker in what the text reads as. */
  lemma {:induction false} CompleteFlaggedExactly(cfg: Config, s: string, m: string) returns (v: Json)
    requires CanParse(s) && cfg.marker == "" && cfg.parserMarker == m
    ensures Outcomes(s, m) == Parsed(s, |s|, "", "") && v == ReadText(s)
    ensures var r := Consume(cfg, v);
            && (r.Throws? <==> cfg.argsPaths != [] && Misused(cfg, v, []))
            && (r.Cleaned? ==> (r.found <==> cfg.argsPaths != [] && Seen(cfg, v, [])))
  {
    v := ReadText(s);
    ConsumeThrowsExactly(cfg, v);
    SeenExactly(cfg, v, []);
  }

  // ----- where the promises fail

  /** The beginning of an escape, up to its second zero. */
  lemma {:induction false} ZerosRead(r: Reader, role: Role) returns (r0: Reader, r1: Reader, r2: Reader, r3: Reader)
    requires r.st.mode == In(TStr(Plain), role)
    ensures r0 == ReadStep(r, '\\') && r1 == ReadStep(r0, 'u') && r2 == ReadStep(r1, '0') && r3 == ReadStep(r2, '0')
    ensures r3 == r.(code := 0, st := State(In(TStr(Hex(2, Ordinary, false)), role), r.st.open))
  {
    r0 := r.(st := State(In(TStr(Esc), role), r.st.open));
    r1 := r.(code := 0, st := State(In(TStr(Hex(0, Fresh, false)), role), r.st.open));
    r2 := r.(code := 0, st := State(In(TStr(Hex(1, Ordinary, false)), role), r.st.open));
    r3 := r.(code := 0, st := State(In(TStr(Hex(2, Ordinary, false)), role), r.st.open));
  }

  lemma {:induction false} DigitsRead(r3: Reader, role: Role, x: char) returns (r4: Reader, q: Reader)
    requires r3.st.mode == In(TStr(Hex(2, Ordinary, false)), role) && r3.code == 0 && IsDigit(x)
    ensures r4 == ReadStep(r3, '3') && q == ReadStep(r4, x)
    ensures q == r3.(st := State(In(TStr(Plain), role), r3.st.open), buf := r3.buf + [x], code := q.code)
  {
    r4 := r3.(code := 3, st := State(In(TStr(Hex(3, Ordinary, false)), role), r3.st.open));
    assert Utf8Of(x as int) == [x];
    q := ReadStep(r4, x);
  }

  /** Reading an escape that spells a decimal digit. */
  lemma {:induction false} DigitEscapeReads(r: Reader, role: Role, x: char) returns (e: string, q: Reader)
    requires r.st.mode == In(TStr(Plain), role) && IsDigit(x)
    ensures e == ['\\', 'u', '0', '0', '3', x] && q == ReadRun(r, e) && q == r.(buf := r.buf + [x], code := q.code)
  {
    hide ReadStep, ReadRun;
    var r0, r1, r2, r3 := ZerosRead(r, role);
    var r4;
    r4, q := DigitsRead(r3, role, x);
    e := ['\\', 'u', '0', '0', '3', x];
    SixSteps(r, e, r0, r1, r2, r3, r4, q);
  }

  lemma {:induction false} SixSteps(r: Reader, e: string, r0: Reader, r1: Reader, r2: Reader, r3: Reader, r4: Reader, q: Reader)
    requires |e| == 6 && r0 == ReadStep(r, e[0]) && r1 == ReadStep(r0, e[1]) && r2 == ReadStep(r1, e[2])
    requires r3 == ReadStep(r2, e[3]) && r4 == ReadStep(r3, e[4]) && q == ReadStep(r4, e[5])
    ensures ReadRun(r, e) == q
  {
    hide ReadStep;
    assert e[1..][1..] == e[2..] && e[2..][1..] == e[3..] && e[3..][1..] == e[4..] && e[4..][1..] == e[5..] && e[5..][1..] == "";
    assert ReadRun(r, e) == ReadRun(r0, e[1..]) == ReadRun(r1, e[2..]) == ReadRun(r2, e[3..]) == ReadRun(r3, e[4..]) == ReadRun(r4, e[5..]);
  }

  /** Two such escapes in a string. */
  lemma {:induction false} TwelveReads(r: Reader, role: Role) returns (e: string, q: Reader)
    requires r.st.mode == In(TStr(Plain), role)
    ensures e == "\\u0031\\u0032" && q == ReadRun(r, e) && q == r.(buf := r.buf + "12", code := q.code)
  {
    hide ReadStep, ReadRun;
    var e1, p := DigitEscapeReads(r, role, '1');
    var e2: string;
    e2, q := DigitEscapeReads(p, role, '2');
    ReadConcat(r, e1, e2);
    e := e1 + e2;
    assert r.buf + ['1'] + ['2'] == r.buf + "12";
  }

  lemma {:induction false} KeyOpens() returns (r0: Reader, r1: Reader, r2: Reader)
    ensures r0 == ReadStep(UNREAD, '{') && r1 == ReadStep(r0, '"') && r2 == ReadStep(r1, 'a')
    ensures r2.st == State(In(TStr(Plain), AsKey), [Obj]) && r2.frames == [ObjectFrame([], "")] && r2.buf == "a"
  {
    hide ReadStep, Holds, Base, InText, KeyDue, AllUpToKey, AllUpToValue;
    UnreadDue();
    var more: string;
    r0, more := OpenObject(UNREAD);
    r1, more := KeyStarts(r0, []);
    r2 := PlainStep1(r1, Plain, AsKey, 'a');
    assert [] + [Obj] == [Obj] && [] + [ObjectFrame([], "")] == [ObjectFrame([], "")] && "" + ['a'] == "a";
  }

  lemma {:induction false} ValueOpens(r2: Reader) returns (r3: Reader, r4: Reader, r: Reader)
    requires r2.st == State(In(TStr(Plain), AsKey), [Obj]) && r2.frames == [ObjectFrame([], "")] && r2.buf == "a"
    ensures r3 == ReadStep(r2, '"') && r4 == ReadStep(r3, ':') && r == ReadStep(r4, '"')
    ensures r.st == State(In(TStr(Plain), AsValue), [Obj]) && r.frames == [ObjectFrame([], "a")] && r.buf == ""
  {
    r3 := ReadStep(r2, '"');
    assert r3.st == State(Colon, [Obj]) && r3.frames == [ObjectFrame([], "a")];
    r4 := ReadStep(r3, ':');
    assert r4.st == State(Value, [Obj]) && r4.frames == r3.frames;
    r := ReadStep(r4, '"');
  }

  lemma {:induction false} MemberOpens() returns (s: string, r: Reader)
    ensures s == "{\"a\":\"" && r == ReadRun(UNREAD, s)
    ensures r.st == State(In(TStr(Plain), AsValue), [Obj]) && r.frames == [ObjectFrame([], "a")] && r.buf == ""
  {
    hide ReadStep, ReadRun;
    s := "{\"a\":\"";
    var r0, r1, r2 := KeyOpens();
    var r3, r4;
    r3, r4, r := ValueOpens(r2);
    SixSteps(UNREAD, s, r0, r1, r2, r3, r4, r);
  }

  lemma {:induction false} TwelveEnds(r: Reader) returns (q: Reader)
    requires r.st == State(In(TStr(Plain), AsValue), [Obj]) && r.frames == [ObjectFrame([], "a")] && r.buf == "12"
    ensures q == ReadStep(r, '"') && q.st == State(After, [Obj]) && q.frames == [ObjectFrame([Member("a", Str("12"))], "a")]
  {
    q := ReadStep(r, '"');
  }

  lemma {:induction false} ObjectEnds(r: Reader) returns (q: Reader)
    requires r.st == State(After, [Obj]) && r.frames == [ObjectFrame([Member("a", Str("12"))], "a")]
    ensures q == ReadStep(r, '}') && q.st == State(After, []) && q.root == Object([Member("a", Str("12"))])
  {
    q := ReadStep(r, '}');
  }

  lemma {:induction false} MemberCloses(r: Reader) returns (s: string, q: Reader)
    requires r.st == State(In(TStr(Plain), AsValue), [Obj]) && r.frames == [ObjectFrame([], "a")] && r.buf == "12"
    ensures s == "\"}" && q == ReadRun(r, s) && q.st == State(After, []) && q.root == Object([Member("a", Str("12"))])
  {
    hide ReadStep;
    s := "\"}";
    var r0 := TwelveEnds(r);
    q := ObjectEnds(r0);
    assert s[1..] == "}";
    ReadOne(r0, '}');
  }

  /** The text `{"a":"\u0031\u0032"}` parses, and what it reads as. */
  lemma {:induction false} SpelledReads() returns (text: string)
    ensures text == "{\"a\":\"\\u0031\\u0032\"}" && CanParse(text) && ReadText(text) == Object([Member("a", Str("12"))])
  {
    hide ReadStep, ReadRun, Run;
    var a, r := MemberOpens();
    var e, p := TwelveReads(r, AsValue);
    var z, q := MemberCloses(p);
    ReadConcat(UNREAD, a, e);
    ReadConcat(UNREAD, a + e, z);
    text := a + e + z;
    ReadFollows(UNREAD, text);
    RootRead(text, q);
  }

  /** The parser draws a marker that is not in the raw input, but escapes can still spell it: here a complete
      text has no `12`, its value does, and a member is dropped and the result flagged partial. */
  lemma {:induction false} MarkerSpelledByEscapes(cfg: Config) returns (text: string)
    requires cfg.marker == "" && cfg.parserMarker == "12" && cfg.argsPaths == [["b"]] && cfg.contentPaths == []
    ensures text == "{\"a\":\"\\u0031\\u0032\"}" && !Occurs(text, "12")
    ensures Outcomes(text, "12") == Parsed(text, |text|, "", "")
    ensures Consume(cfg, ReadText(text)) == Cleaned(Object([]), true)
  {
    text := SpelledReads();
    forall i | 0 <= i <= |text| ensures !OccursAt(text, "12", i) {
      if i + 2 <= |text| { assert text[i..i + 2][0] == text[i] && text[i..i + 2][1] == text[i + 1]; }
    }
    assert !Occurs("a", "12") by {
      forall i | 0 <= i <= 1 ensures !OccursAt("a", "12", i) { }
    }
    assert OccursAt("12", "12", 0);
    assert ["b"] != [] && [] + ["a"] == ["a"];
  }

  lemma {:induction false} ItemOpens() returns (s: string, r: Reader)
    ensures s == "[\"" && r == ReadRun(UNREAD, s)
    ensures r.st == State(In(TStr(Plain), AsValue), [Arr]) && r.frames == [ArrayFrame([])] && r.buf == ""
  {
    s := "[\"";
    var r0 := ReadStep(UNREAD, '[');
    assert r0.st == State(FirstElem, [Arr]) && r0.frames == [ArrayFrame([])];
    r := ReadStep(r0, '"');
    assert s[1..] == "\"";
    ReadOne(r0, '"');
  }

  lemma {:induction false} OneItemDump()
    ensures Dump(Array([Str("121212")])) == "[\"121212\"]"
  {
    EscapeUnescaped("121212");
    assert DumpItems([Str("121212")]) == Quoted("121212") == "\"" + "121212" + "\"";
    assert "[" + ("\"" + "121212" + "\"") + "]" == "[\"121212\"]";
  }

  /** The value of the array of the string `12` and the marker `1212`. */
  lemma {:induction false} ItemHealed(b: Branch, r: Reader)
    requires r.frames == [ArrayFrame([])] && r.buf == "12" && b == ArrayString
    ensures HealedValue(b, r, "1212") == Array([Str("121212")])
  {
    var t := Stem(b, r) + "1212";
    assert t == "121212";
    var top := HealedTop(b, ArrayFrame([]), t);
    assert top == ArrayFrame([] + [Str(t)]) == ArrayFrame([Str(t)]);
    assert Outer(r.frames) + [top] == [top];
  }

  /** For texts with escapes the raw input does not decide where the dump is cut: in `["\u0031\u0032` the
      marker `1212` neither occurs nor starts at the end, yet it is found after two characters of the dump,
      inside the string `12` that was read. */
  lemma {:induction false} EscapesMoveTheCut() returns (s: string, text: string)
    ensures s == "[\"\\u0031\\u0032" && !Occurs(s, "1212") && forall p :: 0 < p < 4 ==> !Straddles(s, "1212", p)
    ensures Outcomes(s, "1212") == Parsed(text, |s|, "1212", "1212")
    ensures Dump(ReadText(text)) == "[\"121212\"]" && Find("[\"121212\"]", "1212", 0) == 2
  {
    hide ReadStep, ReadRun, Run, Outcomes, Dump, Occurs, Straddles, Find, LegalMarker, ReadText;
    var r: Reader;
    s, r := SpelledItem();
    NotInSpelled(s);
    DigitsAreLegal("1212");
    LegalIs("1212");
    ItemStringOutcome(s, "1212");
    text := s + "1212" + "\"]";
    SpelledHealed(s, r, text);
    FoundEarly();
    assert "[\"12" + "1212" + "\"]" == "[\"121212\"]";
  }

  lemma {:induction false} LegalIs(m: string)
    requires m != "" && StaysPlain(Plain, m)
    ensures LegalMarker(m)
  {
  }

  lemma {:induction false} SpelledItem() returns (s: string, r: Reader)
    ensures s == "[\"\\u0031\\u0032" && r == ReaderAt(s) && r.st == Run(START, s)
    ensures r.st == State(In(TStr(Plain), AsValue), [Arr]) && r.frames == [ArrayFrame([])] && r.buf == "12"
  {
    hide ReadStep, ReadRun, Run;
    var a, q := ItemOpens();
    var e: string;
    e, r := TwelveReads(q, AsValue);
    s := a + e;
    ReadConcat(UNREAD, a, e);
    ReadFollows(UNREAD, s);
  }

  lemma {:induction false} NotInSpelled(s: string)
    requires s == "[\"\\u0031\\u0032"
    ensures !Occurs(s, "1212") && forall p :: 0 < p < 4 ==> !Straddles(s, "1212", p)
  {
    forall i | 0 <= i <= |s| ensures !OccursAt(s, "1212", i) {
      if i + 4 <= |s| { assert s[i..i + 4][0] == s[i] && s[i..i + 4][1] == s[i + 1]; }
    }
    assert |s| == 14 && s[13] == '2' && s[12] == '3';
    forall p | 0 < p < 4 ensures !Straddles(s, "1212", p) {
      assert s[|s| - p..][p - 1] == '2' && (p > 1 ==> s[|s| - p..][p - 2] == '3');
      assert "1212"[..p][p - 1] == "1212"[p - 1] && (p > 1 ==> "1212"[..p][p - 2] == "1212"[p - 2]);
    }
  }

  lemma {:induction false} ItemBranch(s: string)
    requires s != "" && Run(START, s) == State(In(TStr(Plain), AsValue), [Arr])
    ensures BranchOf(s) == ArrayString && Truncated(s)
    ensures forall m :: Write(ArrayString, s, ClosingOf([Arr]), m).Healed? && Write(ArrayString, s, ClosingOf([Arr]), m).kept == s
  {
    assert s[..|s|] == s;
    hide Run;
  }

  lemma {:induction false} SpelledHealed(s: string, r: Reader, text: string)
    requires r == ReaderAt(s) && r.st == Run(START, s)
    requires r.st == State(In(TStr(Plain), AsValue), [Arr]) && r.frames == [ArrayFrame([])] && r.buf == "12"
    requires s != "" && Outcomes(s, "1212") == Parsed(text, |s|, "1212", "1212") && LegalMarker("1212")
    ensures Dump(ReadText(text)) == "[\"121212\"]"
  {
    hide ReadStep, ReadRun, Run, Outcomes, HealedValue, Dump, Heals, BranchOf, Truncated, Write, Heal, BranchAt, LegalMarker, FitsReader, Starts,
      ReadText, ReaderAt;
    ItemBranch(s);
    TruncatedParsed(s, "1212");
    var h, b, q := HealedTextReads(s, "1212");
    HealWrites(s, "1212");
    ItemAt(s);
    ItemHealed(b, r);
    OneItemDump();
  }

  lemma {:induction false} ItemAt(s: string)
    requires s != "" && Run(START, s) == State(In(TStr(Plain), AsValue), [Arr])
    ensures BranchAt(Run(START, s), s[|s| - 1]) == ArrayString
  {
    hide Run;
  }
}
