/** What cleaning keeps: which members and items survive, and what each argument and content becomes. */
module CleanedParts {
  import opened CommonJson
  import opened DumpRead
  import opened HealedCut
  import opened HealedDump
  import opened HealedRead
  import opened HealingTheorems
  import opened JsonClean
  import opened JsonRead
  import opened JsonText
  import opened JsonValue
  import opened PartialJson
  import opened PartialResults
  import opened ReadableTexts
  import opened SaxEvents
  import opened Text

  /** `t` is `s` up to the first `m`, or all of `s` when there is none. */
  predicate UpToFirst(s: string, m: string, t: string) {
    if Occurs(s, m) then exists p :: 0 <= p <= |s| && FirstAt(s, m, p) && t == s[..p] else t == s
  }

  /** The text of a dumped argument: on a complete value a text that reads as the value; on a healed one
      its dump up to the dump marker, where a quote alone stands for nothing. */
  ghost predicate ArgumentText(cfg: Config, j: Json, t: string) {
    if cfg.isPartial && cfg.marker != "" then exists cut :: UpToFirst(Dump(j), cfg.dumpMarker, cut) && t == if cut == "\"" then "" else cut
    else CanParse(t) && ReadText(t) == j
  }

  /** The `count` first members are kept: all of them, or those before the first that has the marker in its
      key or string, and that one too when its string is content that was healed in place. */
  predicate KeepsMembers(cfg: Config, members: seq<Member>, path: Path, count: nat) {
    && count <= |members|
    && (forall i :: 0 <= i < count - 1 ==> !Breaks(cfg, members[i]))
    && (count > 0 && Breaks(cfg, members[count - 1]) ==> HealedContent(cfg, members[count - 1], path))
    && (count < |members| ==> (count > 0 && Breaks(cfg, members[count - 1])) || (Breaks(cfg, members[count]) && !HealedContent(cfg, members[count], path)))
  }

  predicate HealedContent(cfg: Config, x: Member, path: Path) {
    !Occurs(x.key, cfg.parserMarker) && path + [x.key] in cfg.contentPaths && cfg.marker == cfg.dumpMarker
  }

  predicate KeepsItems(cfg: Config, items: seq<Json>, count: nat) {
    && count <= |items|
    && (forall i :: 0 <= i < count ==> !ItemBreaks(cfg, items[i]))
    && (count < |items| ==> ItemBreaks(cfg, items[count]))
  }

  /** `v` is what cleaning leaves of `j`. */
  ghost predicate Leaves(cfg: Config, j: Json, v: Json, path: Path)
    decreases j, 2
  {
    if path in cfg.argsPaths then v.Str? && ArgumentText(cfg, j, v.s)
    else if path in cfg.contentPaths then j.Str? && v.Str? && UpToFirst(j.s, cfg.marker, v.s)
    else match j
      case Object(members) => v.Object? && LeavesMembers(cfg, members, v.members, path)
      case Array(items) => v.Array? && LeavesItems(cfg, items, v.items, path)
      case _ => v == j
  }

  ghost predicate LeavesMembers(cfg: Config, members: seq<Member>, out: seq<Member>, path: Path)
    decreases members, 1
  {
    KeepsMembers(cfg, members, path, |out|) && forall i :: 0 <= i < |out| ==> LeavesMember(cfg, members[i], out[i], path)
  }

  /** A string that has no marker is not looked up in the paths. */
  ghost predicate LeavesMember(cfg: Config, x: Member, y: Member, path: Path)
    decreases x, 1
  {
    y.key == x.key && if x.value.Str? && !Occurs(x.value.s, cfg.parserMarker) then y.value == x.value else Leaves(cfg, x.value, y.value, path + [x.key])
  }

  ghost predicate LeavesItems(cfg: Config, items: seq<Json>, out: seq<Json>, path: Path)
    decreases items, 1
  {
    KeepsItems(cfg, items, |out|) && forall i :: 0 <= i < |out| ==> Leaves(cfg, items[i], out[i], path)
  }

  // ----- cleaning leaves just that

  lemma {:induction false} FoundFirst(s: string, m: string)
    ensures var p := Find(s, m, 0); UpToFirst(s, m, if p >= 0 then s[..p] else s)
  {
    var p := Find(s, m, 0);
    if p >= 0 {
      assert FirstAt(s, m, p);
    } else {
      assert !Occurs(s, m);
    }
  }

  lemma {:induction false} ArgumentLeaves(cfg: Config, j: Json)
    requires Readable(j)
    ensures var r := DumpedArguments(cfg, j); r.Cleaned? && r.value.Str? && ArgumentText(cfg, j, r.value.s)
  {
    hide Dump, UpToFirst;
    FoundFirst(Dump(j), cfg.dumpMarker);
    DumpReadBack(j);
  }

  lemma {:induction false} CleanLeaves(cfg: Config, j: Json, path: Path)
    requires Readable(j)
    ensures var r := Clean(cfg, j, path); r.Cleaned? ==> Leaves(cfg, j, r.value, path)
    decreases j, 1
  {
    if path in cfg.argsPaths {
      ArgumentLeaves(cfg, j);
    } else if path in cfg.contentPaths {
      if j.Str? { FoundFirst(j.s, cfg.marker); }
    } else {
      match j {
        case Object(members) => MembersLeave(cfg, members, path, 0, []);
        case Array(items) => ItemsLeave(cfg, items, path, 0, []);
        case _ =>
      }
    }
  }

  /** The members kept so far, none of which has the marker. */
  ghost predicate DoneMembers(cfg: Config, members: seq<Member>, done: seq<Member>, path: Path) {
    && |done| <= |members|
    && forall i :: 0 <= i < |done| ==> !Breaks(cfg, members[i]) && LeavesMember(cfg, members[i], done[i], path)
  }

  /** The value of a member, cleaned unless it is a string without the marker. */
  function CleanMember(cfg: Config, x: Member, path: Path): Cleaned {
    if x.value.Str? && !Occurs(x.value.s, cfg.parserMarker) then Cleaned(x.value, false) else Clean(cfg, x.value, path + [x.key])
  }

  lemma {:induction false} MemberLeaves(cfg: Config, x: Member, path: Path)
    requires Readable(x.value)
    ensures var v := CleanMember(cfg, x, path); v.Cleaned? ==> LeavesMember(cfg, x, Member(x.key, v.value), path)
    decreases x, 1
  {
    if !x.value.Str? || Occurs(x.value.s, cfg.parserMarker) { CleanLeaves(cfg, x.value, path + [x.key]); }
  }

  lemma {:induction false} OneMember(cfg: Config, members: seq<Member>, path: Path, done: seq<Member>)
    requires members != [] && forall i :: 0 <= i < |done| ==> done[i].key != members[0].key
    ensures var x := members[0]; var v := CleanMember(cfg, x, path);
            var r := CleanMembers(cfg, members, path, done);
            if Breaks(cfg, x) then
              r.Cleaned? ==> if HealedContent(cfg, x, path) then v.Cleaned? && r.value == Object(done + [Member(x.key, v.value)]) else r.value == Object(done)
            else
              r.Cleaned? ==> v.Cleaned? && var rest := CleanMembers(cfg, members[1..], path, done + [Member(x.key, v.value)]); rest.Cleaned? && r.value == rest.value
  {
    var x := members[0];
    var v := CleanMember(cfg, x, path);
    if v.Cleaned? { PutNew(done, x.key, v.value); }
  }

  lemma {:induction false} StoppedMembers(cfg: Config, members: seq<Member>, done: seq<Member>, path: Path, y: Json)
    requires DoneMembers(cfg, members, done, path) && |done| < |members| && Breaks(cfg, members[|done|])
    ensures !HealedContent(cfg, members[|done|], path) ==> LeavesMembers(cfg, members, done, path)
    ensures HealedContent(cfg, members[|done|], path) && LeavesMember(cfg, members[|done|], Member(members[|done|].key, y), path) ==>
              LeavesMembers(cfg, members, done + [Member(members[|done|].key, y)], path)
  {
    hide Breaks, HealedContent, LeavesMember;
    var out := done + [Member(members[|done|].key, y)];
    assert forall i :: 0 <= i < |done| ==> out[i] == done[i];
  }

  lemma {:induction false} AllDone(cfg: Config, members: seq<Member>, path: Path, done: seq<Member>)
    requires |done| == |members| && DoneMembers(cfg, members, done, path)
    ensures CleanMembers(cfg, members[|done|..], path, done) == Cleaned(Object(done), false) && LeavesMembers(cfg, members, done, path)
  {
    hide LeavesMember, Breaks, HealedContent;
    assert members[|done|..] == [];
  }

  lemma {:induction false} StopsHere(cfg: Config, members: seq<Member>, path: Path, done: seq<Member>)
    requires Readable(Object(members)) && DoneMembers(cfg, members, done, path) && |done| < |members| && Breaks(cfg, members[|done|])
    ensures var r := CleanMembers(cfg, members[|done|..], path, done);
            r.Cleaned? ==> r.value.Object? && LeavesMembers(cfg, members, r.value.members, path)
    decreases Object(members), 0, 0
  {
    var x := members[|done|];
    assert members[|done|..][0] == x;
    MemberLeaves(cfg, x, path);
    NotDone(cfg, members, done, path);
    OneMember(cfg, members[|done|..], path, done);
    hide Breaks, HealedContent, LeavesMember, CleanMember, CleanMembers, Readable;
    var v := CleanMember(cfg, x, path);
    StoppedMembers(cfg, members, done, path, if v.Cleaned? then v.value else Null);
  }

  lemma {:induction false} MembersLeave(cfg: Config, members: seq<Member>, path: Path, i: nat, done: seq<Member>)
    requires Readable(Object(members)) && i == |done| && DoneMembers(cfg, members, done, path)
    ensures var r := CleanMembers(cfg, members[i..], path, done);
            r.Cleaned? ==> r.value.Object? && LeavesMembers(cfg, members, r.value.members, path)
    decreases Object(members), 0, |members| - i
  {
    hide Breaks, HealedContent, LeavesMember, CleanMember, LeavesMembers, CleanMembers;
    if i == |members| {
      AllDone(cfg, members, path, done);
    } else if Breaks(cfg, members[i]) {
      StopsHere(cfg, members, path, done);
    } else {
      var x := members[i];
      assert members[i..][0] == x && members[i..][1..] == members[i + 1..];
      MemberLeaves(cfg, x, path);
      NotDone(cfg, members, done, path);
      OneMember(cfg, members[i..], path, done);
      hide Readable;
      var v := CleanMember(cfg, x, path);
      if v.Cleaned? { MembersLeave(cfg, members, path, i + 1, done + [Member(x.key, v.value)]); }
    }
  }

  lemma {:induction false} NotDone(cfg: Config, members: seq<Member>, done: seq<Member>, path: Path)
    requires Readable(Object(members)) && DoneMembers(cfg, members, done, path) && |done| < |members|
    ensures forall i :: 0 <= i < |done| ==> done[i].key != members[|done|].key
  {
  }

  lemma {:induction false} ItemsLeave(cfg: Config, items: seq<Json>, path: Path, i: nat, done: seq<Json>)
    requires Readable(Array(items)) && i == |done| <= |items|
    requires forall k :: 0 <= k < i ==> !ItemBreaks(cfg, items[k]) && Leaves(cfg, items[k], done[k], path)
    ensures var r := CleanItems(cfg, items[i..], path, done);
            r.Cleaned? ==> r.value.Array? && LeavesItems(cfg, items, r.value.items, path)
    decreases Array(items), 0, |items| - i
  {
    if i < |items| {
      assert items[i..][0] == items[i] && items[i..][1..] == items[i + 1..];
      CleanLeaves(cfg, items[i], path);
      var v := Clean(cfg, items[i], path);
      if !ItemBreaks(cfg, items[i]) && v.Cleaned? { ItemsLeave(cfg, items, path, i + 1, done + [v.value]); }
    }
  }

  /** The whole call on what any input was parsed to: it comes back as it is when nothing was healed and there
      are no arguments to dump, and otherwise only what the paths and the marker name is changed. */
  lemma {:induction false} ConsumedLeaves(cfg: Config, input: string) returns (v: Json)
    requires var o := Outcomes(input, cfg.parserMarker); o.Parsed? && cfg.marker == o.marker && cfg.dumpMarker == o.dumpMarker
    ensures v == ReadText(Outcomes(input, cfg.parserMarker).text) && Readable(v)
    ensures var r := Consume(cfg, v);
            r.Cleaned? ==> if cfg.marker == "" && cfg.argsPaths == [] then r == Cleaned(v, false) else Leaves(cfg, v, r.value, [])
  {
    var text := Outcomes(input, cfg.parserMarker).text;
    v := ReadText(text);
    assert CanParse(text);
    hide Outcomes, CanParse, ReadText, Dumpable, DistinctKeys, Leaves, Clean, Dump, Heal;
    ReadDumpedBack(text);
    CleanLeaves(cfg, v, []);
    if cfg.marker == "" && [] in cfg.argsPaths { WholeLeaves(cfg, v); }
  }

  lemma {:induction false} WholeLeaves(cfg: Config, j: Json)
    requires Readable(j) && cfg.marker == "" && [] in cfg.argsPaths
    ensures Leaves(cfg, j, Str(Dump(j)), [])
  {
    DumpReadBack(j);
  }

  // ----- complete values

  /** `v` is `j` with each value at an argument path replaced by a text that reads as it. */
  predicate Replaced(cfg: Config, j: Json, v: Json, path: Path)
    decreases j, 1
  {
    if path in cfg.argsPaths then v.Str? && CanParse(v.s) && ReadText(v.s) == j
    else match j
      case Object(members) =>
        v.Object? && |v.members| == |members| && forall i :: 0 <= i < |members| ==> ReplacedMember(cfg, members[i], v.members[i], path)
      case Array(items) => v.Array? && |v.items| == |items| && forall i :: 0 <= i < |items| ==> Replaced(cfg, items[i], v.items[i], path)
      case _ => v == j
  }

  /** Strings are left as they are, also at argument paths. */
  predicate ReplacedMember(cfg: Config, x: Member, y: Member, path: Path)
    decreases x, 2
  {
    y.key == x.key && if x.value.Str? then y.value == x.value else Replaced(cfg, x.value, y.value, path + [x.key])
  }

  lemma {:induction false} NoBreaks(cfg: Config, members: seq<Member>)
    requires Free(cfg.parserMarker, Object(members))
    ensures forall i :: 0 <= i < |members| ==> !Breaks(cfg, members[i])
  {
  }

  lemma {:induction false} KeepsAll(cfg: Config, members: seq<Member>, path: Path, count: nat)
    requires KeepsMembers(cfg, members, path, count) && Free(cfg.parserMarker, Object(members))
    ensures count == |members|
  {
    NoBreaks(cfg, members);
  }

  lemma {:induction false} LeavesReplaced(cfg: Config, j: Json, v: Json, path: Path)
    requires Free(cfg.parserMarker, j) && cfg.marker == "" && Leaves(cfg, j, v, path) && (j.Str? ==> path !in cfg.contentPaths)
    ensures Replaced(cfg, j, v, path)
    decreases j, 1
  {
    if path !in cfg.argsPaths {
      match j {
        case Object(members) =>
          KeepsAll(cfg, members, path, |v.members|);
          forall i | 0 <= i < |members| ensures ReplacedMember(cfg, members[i], v.members[i], path) {
            MemberReplaced(cfg, members[i], v.members[i], path);
          }
        case Array(items) =>
          forall i | 0 <= i < |items| ensures Replaced(cfg, items[i], v.items[i], path) {
            LeavesReplaced(cfg, items[i], v.items[i], path);
          }
        case _ =>
      }
    }
  }

  lemma {:induction false} MemberReplaced(cfg: Config, x: Member, y: Member, path: Path)
    requires !Occurs(x.key, cfg.parserMarker) && Free(cfg.parserMarker, x.value) && cfg.marker == "" && LeavesMember(cfg, x, y, path)
    ensures ReplacedMember(cfg, x, y, path)
    decreases x, 2
  {
    if !x.value.Str? { LeavesReplaced(cfg, x.value, y.value, path + [x.key]); }
  }

  /** A complete text whose value has the marker nowhere: the result is its value with the arguments replaced
      by their texts, and nothing else changed. */
  lemma {:induction false} CompleteReplaced(cfg: Config, s: string) returns (v: Json)
    requires CanParse(s) && cfg.marker == "" && cfg.dumpMarker == "" && Free(cfg.parserMarker, ReadText(s))
    requires ReadText(s).Str? ==> [] !in cfg.contentPaths
    ensures Outcomes(s, cfg.parserMarker) == Parsed(s, |s|, "", "") && v == ReadText(s)
    ensures var r := Consume(cfg, v);
            r.Cleaned? ==> if cfg.argsPaths == [] then r == Cleaned(v, false) else Replaced(cfg, v, r.value, [])
  {
    hide CanParse, ReadText, Leaves, Replaced, Consume, Free;
    v := ConsumedLeaves(cfg, s);
    var r := Consume(cfg, v);
    if r.Cleaned? && cfg.argsPaths != [] { LeavesReplaced(cfg, v, r.value, []); }
  }

  // ----- healed values that are arguments as a whole

  lemma {:induction false} DumpOpens(j: Json)
    requires j.Array? || j.Object?
    ensures |Dump(j)| >= 2 && Dump(j)[0] != '"'
  {
  }

  /** When the whole JSON is the argument and the input is cut, the argument is the text that healing keeps,
      exactly as the marker does not run over its end. */
  lemma {:induction false} RootArgumentsAreText(cfg: Config, j: Json, k: nat, m: string) returns (s: string, h: Healing, v: Json)
    requires Readable(j) && (j.Array? || j.Object?) && k <= |Dump(j)| && Heals(Dump(j)[..k], m)
    requires PlainMarker(m) && !Occurs(Dump(j)[..k], m)
    requires [] in cfg.argsPaths && cfg.isPartial && cfg.marker == m && cfg.dumpMarker == Heal(Dump(j)[..k], StackAfter(Dump(j)[..k]), m).dumpMarker
    ensures s == Dump(j)[..k] != "" && h == Heal(s, StackAfter(s), m) && v == ReadText(h.Text()) && h.kept <= s
    ensures Consume(cfg, v) == Cleaned(Str(h.kept), true) <==>
            Lead(BranchOf(s)) != "" || forall p :: 0 < p < |m| ==> !Straddles(h.kept, m, p)
  {
    hide Dump, Occurs, Straddles, Heal, StackAfter, BranchOf, Lead, Find, DumpTail, ReadText;
    var b;
    s, h := KeptOfDump(j, k, m);
    s, h, b, v := CutGivesBackDump(j, k, m);
    DumpOpens(j);
    KeptCut(h.kept, h.dumpMarker, DumpTail(b) + ClosingOf(Run(START, s).open));
    assert Dump(j)[..k][..|h.kept|] == Dump(j)[..|h.kept|];
    RootCut(cfg, v, h.kept);
  }

  lemma {:induction false} KeptCut(kept: string, dm: string, rest: string)
    ensures 0 <= Find(kept + dm + rest, dm, 0) <= |kept| && (kept + dm + rest)[..|kept|] == kept
  {
    var d := kept + dm + rest;
    assert d[|kept|..|kept| + |dm|] == dm;
    assert OccursAt(d, dm, |kept|);
  }

  lemma {:induction false} RootCut(cfg: Config, v: Json, kept: string)
    requires [] in cfg.argsPaths && cfg.isPartial && cfg.marker != "" && (kept != "" ==> kept[0] != '"')
    requires 0 <= Find(Dump(v), cfg.dumpMarker, 0) <= |kept| <= |Dump(v)| && Dump(v)[..|kept|] == kept
    ensures Consume(cfg, v) == Cleaned(Str(kept), true) <==> Find(Dump(v), cfg.dumpMarker, 0) == |kept|
  {
    hide Dump, Find;
    assert Consume(cfg, v) == DumpedArguments(cfg, v);
    var p := Find(Dump(v), cfg.dumpMarker, 0);
    assert |Dump(v)[..p]| == p;
  }
}
