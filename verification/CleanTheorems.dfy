/** What cleaning a healed value guarantees. */
module CleanTheorems {
  import opened JsonValue
  import opened JsonClean
  import opened Text

  // ----- values without the marker

  lemma {:induction false} PutFree(m: string, done: seq<Member>, key: string, value: Json)
    requires Free(m, Object(done)) && !Occurs(key, m) && Free(m, value)
    ensures Free(m, Object(Put(done, key, value)))
    decreases |done|
  {
    if done != [] && done[0].key != key {
      assert Free(m, Object(done[1..]));
      PutFree(m, done[1..], key, value);
    }
  }

  lemma {:induction false} FreeNoDumpMarker(s: string, lead: string, m: string)
    requires !Occurs(s, m)
    ensures Find(s, lead + m, 0) < 0
  {
    PartNotIn(s, s, lead, m);
  }

  /** The configuration of a parse: healed with the parser's own marker on partial input, or not healed. */
  predicate ConfigFits(cfg: Config, lead: string) {
    && cfg.parserMarker != ""
    && (cfg.marker == "" || (cfg.marker == cfg.parserMarker && cfg.isPartial && cfg.dumpMarker == lead + cfg.marker))
  }

  predicate NotContentString(cfg: Config, j: Json, path: Path) {
    j.Str? ==> path !in cfg.contentPaths
  }

  lemma {:induction false} ArgumentsFree(cfg: Config, lead: string, j: Json)
    requires ConfigFits(cfg, lead) && !Occurs(Dump(j), cfg.parserMarker)
    ensures DumpedArguments(cfg, j).Cleaned?
    ensures Free(cfg.parserMarker, DumpedArguments(cfg, j).value) && !DumpedArguments(cfg, j).found
  {
    if cfg.marker != "" { FreeNoDumpMarker(Dump(j), lead, cfg.marker); }
    if Dump(j) == "\"" { assert !Occurs("", cfg.parserMarker); }
  }

  /** A value with the marker nowhere, not even in its dump, is cleaned without finding it. */
  lemma {:induction false} CleanFree(cfg: Config, lead: string, j: Json, path: Path)
    requires ConfigFits(cfg, lead) && Free(cfg.parserMarker, j) && !Occurs(Dump(j), cfg.parserMarker)
    requires NotContentString(cfg, j, path)
    ensures var r := Clean(cfg, j, path); r.Cleaned? ==> Free(cfg.parserMarker, r.value) && !r.found
    decreases j, 1
  {
    if path in cfg.argsPaths {
      ArgumentsFree(cfg, lead, j);
    } else if path !in cfg.contentPaths {
      match j {
        case Object(members) =>
          InnerFree("{", DumpMembers(members), "}", cfg.parserMarker);
          CleanFreeMembers(cfg, lead, members, path, []);
        case Array(items) =>
          InnerFree("[", DumpItems(items), "]", cfg.parserMarker);
          CleanFreeItems(cfg, lead, items, path, []);
        case _ =>
      }
    }
  }

  lemma {:induction false} InnerFree(a: string, b: string, c: string, m: string)
    requires !Occurs(a + b + c, m)
    ensures !Occurs(b, m)
  {
    NotOccursParts(a + b, c, m);
    NotOccursParts(a, b, m);
  }

  lemma {:induction false} FreeMembersParts(members: seq<Member>, m: string)
    requires members != [] && !Occurs(DumpMembers(members), m)
    ensures !Occurs(Dump(members[0].value), m) && !Occurs(DumpMembers(members[1..]), m)
  {
    if |members| > 1 {
      NotOccursParts(DumpMember(members[0]) + ",", DumpMembers(members[1..]), m);
      NotOccursParts(DumpMember(members[0]), ",", m);
    } else {
      assert members[1..] == [];
      assert DumpMembers(members) == DumpMember(members[0]) + "";
      NotOccursParts(DumpMember(members[0]), "", m);
    }
    NotOccursParts(Quoted(members[0].key) + ":", Dump(members[0].value), m);
  }

  lemma {:induction false} FreeItemsParts(items: seq<Json>, m: string)
    requires items != [] && !Occurs(DumpItems(items), m)
    ensures !Occurs(Dump(items[0]), m) && !Occurs(DumpItems(items[1..]), m)
  {
    if |items| > 1 {
      NotOccursParts(Dump(items[0]) + ",", DumpItems(items[1..]), m);
      NotOccursParts(Dump(items[0]), ",", m);
    } else {
      assert items[1..] == [];
      assert DumpItems(items) == Dump(items[0]) + "";
      NotOccursParts(Dump(items[0]), "", m);
    }
  }

  lemma {:induction false} CleanFreeMembers(cfg: Config, lead: string, members: seq<Member>, path: Path, done: seq<Member>)
    requires ConfigFits(cfg, lead) && Free(cfg.parserMarker, Object(members)) && Free(cfg.parserMarker, Object(done))
    requires !Occurs(DumpMembers(members), cfg.parserMarker)
    ensures var r := CleanMembers(cfg, members, path, done); r.Cleaned? ==> Free(cfg.parserMarker, r.value) && !r.found
    decreases members, 0
  {
    if members != [] {
      var Member(key, value) := members[0];
      FreeMembersParts(members, cfg.parserMarker);
      assert Free(cfg.parserMarker, value);
      assert Free(cfg.parserMarker, Object(members[1..]));
      if value.Str? {
        PutFree(cfg.parserMarker, done, key, value);
        CleanFreeMembers(cfg, lead, members[1..], path, Put(done, key, value));
      } else {
        CleanFree(cfg, lead, value, path + [key]);
        var v := Clean(cfg, value, path + [key]);
        if v.Cleaned? {
          PutFree(cfg.parserMarker, done, key, v.value);
          CleanFreeMembers(cfg, lead, members[1..], path, Put(done, key, v.value));
        }
      }
    }
  }

  lemma {:induction false} CleanFreeItems(cfg: Config, lead: string, items: seq<Json>, path: Path, done: seq<Json>)
    requires ConfigFits(cfg, lead) && Free(cfg.parserMarker, Array(items)) && Free(cfg.parserMarker, Array(done))
    requires !Occurs(DumpItems(items), cfg.parserMarker) && path !in cfg.contentPaths
    ensures var r := CleanItems(cfg, items, path, done); r.Cleaned? ==> Free(cfg.parserMarker, r.value) && !r.found
    decreases items, 0
  {
    if items != [] {
      FreeItemsParts(items, cfg.parserMarker);
      assert Free(cfg.parserMarker, items[0]);
      assert Free(cfg.parserMarker, Array(items[1..]));
      CleanFree(cfg, lead, items[0], path);
      var v := Clean(cfg, items[0], path);
      if v.Cleaned? {
        CleanFreeItems(cfg, lead, items[1..], path, done + [v.value]);
      }
    }
  }

  // ----- healed values

  /** How a value sits in its parent. */
  datatype Place = InMember | FirstItem | LaterItem

  function Before(place: Place): string {
    match place
    case InMember => ":"
    case FirstItem => "["
    case LaterItem => ","
  }

  /** The string `s` is what healing left of a value or key: the text read so far and the marker. */
  predicate HealedString(lead: string, m: string, s: string) {
    && |s| >= |m| && s[|s| - |m|..] == m && FirstAt(s, m, |s| - |m|)
    && (lead == "\\" ==> |s| > |m| && s[|s| - |m| - 1] == '\\')
    && (lead != "" && lead != "\\" ==> s == m)
  }

  /** The marker is in the rightmost leaf or key, as the branch that wrote `lead` left it. */
  predicate HealedAt(lead: string, m: string, j: Json, place: Place)
    decreases j, 1
  {
    match j
    case Str(s) => HealedString(lead, m, s) && (lead == ":\"" ==> place == InMember) && (lead == ",\"" ==> place == LaterItem)
    case Array(items) => HealedItems(lead, m, items, true)
    case Object(members) => HealedMembers(lead, m, members, true)
    case _ => false
  }

  predicate HealedItems(lead: string, m: string, items: seq<Json>, first: bool)
    decreases items, 0
  {
    && items != []
    && if |items| == 1 then HealedAt(lead, m, items[0], if first then FirstItem else LaterItem)
       else Free(m, items[0]) && HealedItems(lead, m, items[1..], false)
  }

  predicate HealedMembers(lead: string, m: string, members: seq<Member>, first: bool)
    decreases members, 0
  {
    && members != []
    && if |members| == 1 then
         || (!Occurs(members[0].key, m) && HealedAt(lead, m, members[0].value, InMember))
         || (HealedString(lead, m, members[0].key) && members[0].value == Num("1") && lead != ":\"" && (lead == ",\"" ==> !first))
       else !Occurs(members[0].key, m) && Free(m, members[0].value) && HealedMembers(lead, m, members[1..], false)
  }

  // ----- the dump of a healed value, split at the marker

  function BeforeString(m: string, s: string): string {
    "\"" + if |s| < |m| then "" else Escape(s[..|s| - |m|])
  }

  function BeforeJoin(m: string, j: Json): string
    decreases j, 1
  {
    match j
    case Str(s) => BeforeString(m, s)
    case Array(items) => "[" + BeforeItems(m, items)
    case Object(members) => "{" + BeforeMembers(m, members)
    case _ => ""
  }

  function BeforeItems(m: string, items: seq<Json>): string
    decreases items, 0
  {
    if items == [] then ""
    else if |items| == 1 then BeforeJoin(m, items[0])
    else (Dump(items[0]) + ",") + BeforeItems(m, items[1..])
  }

  function BeforeMembers(m: string, members: seq<Member>): string
    decreases members, 0
  {
    if members == [] then ""
    else if |members| == 1 then
      (if Occurs(members[0].key, m) then BeforeString(m, members[0].key)
       else (Quoted(members[0].key) + ":") + BeforeJoin(m, members[0].value))
    else (DumpMember(members[0]) + ",") + BeforeMembers(m, members[1..])
  }

  function AfterJoin(m: string, j: Json): string
    decreases j, 1
  {
    match j
    case Str(s) => "\""
    case Array(items) => AfterItems(m, items) + "]"
    case Object(members) => AfterMembers(m, members) + "}"
    case _ => ""
  }

  function AfterItems(m: string, items: seq<Json>): string
    decreases items, 0
  {
    if items == [] then ""
    else if |items| == 1 then AfterJoin(m, items[0])
    else AfterItems(m, items[1..])
  }

  function AfterMembers(m: string, members: seq<Member>): string
    decreases members, 0
  {
    if members == [] then ""
    else if |members| == 1 then
      (if Occurs(members[0].key, m) then "\"" + (":" + Dump(members[0].value)) else AfterJoin(m, members[0].value))
    else AfterMembers(m, members[1..])
  }

  /** No character of the marker is escaped when dumped. */
  predicate Unescaped(m: string) { m != "" && forall i :: 0 <= i < |m| ==> EscapeChar(m[i]) == [m[i]] }

  predicate IsLead(lead: string) {
    lead == "" || lead == "\\" || lead == "\"" || lead == ":\"" || lead == ",\""
  }

  lemma {:induction false} Regroup(x: string, b: string, m: string, a: string, y: string)
    ensures x + (b + m + a) + y == (x + b) + m + (a + y)
  {
  }

  lemma {:induction false} QuotedSplit(m: string, s: string)
    requires Unescaped(m) && |s| >= |m| && s[|s| - |m|..] == m
    ensures Quoted(s) == BeforeString(m, s) + m + "\""
  {
    var pre := s[..|s| - |m|];
    assert s == pre + m;
    EscapeConcat(pre, m);
    EscapeUnescaped(m);
    Regroup("\"", Escape(pre), m, "", "\"");
    assert Escape(pre) + m + "" == Escape(pre) + m;
    assert "" + "\"" == "\"";
  }

  /** The dump of a healed value is the text before the marker, the marker, and the text after it. */
  lemma {:induction false} DumpSplit(lead: string, m: string, j: Json, place: Place)
    requires Unescaped(m) && HealedAt(lead, m, j, place)
    ensures Dump(j) == BeforeJoin(m, j) + m + AfterJoin(m, j)
    decreases j, 1
  {
    match j {
      case Str(s) => QuotedSplit(m, s);
      case Array(items) =>
        ItemsSplit(lead, m, items, true);
        Regroup("[", BeforeItems(m, items), m, AfterItems(m, items), "]");
      case Object(members) =>
        MembersSplit(lead, m, members, true);
        Regroup("{", BeforeMembers(m, members), m, AfterMembers(m, members), "}");
    }
  }

  lemma {:induction false} ItemsSplit(lead: string, m: string, items: seq<Json>, first: bool)
    requires Unescaped(m) && HealedItems(lead, m, items, first)
    ensures DumpItems(items) == BeforeItems(m, items) + m + AfterItems(m, items)
    decreases items, 0
  {
    if |items| == 1 {
      DumpSplit(lead, m, items[0], if first then FirstItem else LaterItem);
    } else {
      ItemsSplit(lead, m, items[1..], false);
      Regroup(Dump(items[0]) + ",", BeforeItems(m, items[1..]), m, AfterItems(m, items[1..]), "");
      assert AfterItems(m, items[1..]) + "" == AfterItems(m, items[1..]);
      assert DumpItems(items) == (Dump(items[0]) + ",") + DumpItems(items[1..]) + "";
    }
  }

  lemma {:induction false} MembersSplit(lead: string, m: string, members: seq<Member>, first: bool)
    requires Unescaped(m) && HealedMembers(lead, m, members, first)
    ensures DumpMembers(members) == BeforeMembers(m, members) + m + AfterMembers(m, members)
    decreases members, 0
  {
    if |members| > 1 {
      MembersSplit(lead, m, members[1..], false);
      Regroup(DumpMember(members[0]) + ",", BeforeMembers(m, members[1..]), m, AfterMembers(m, members[1..]), "");
      assert AfterMembers(m, members[1..]) + "" == AfterMembers(m, members[1..]);
      assert DumpMembers(members) == (DumpMember(members[0]) + ",") + DumpMembers(members[1..]) + "";
    } else {
      LastMemberSplit(lead, m, members, first);
    }
  }

  lemma {:induction false} KeySplit(m: string, x: Member)
    requires Unescaped(m) && |x.key| >= |m| && x.key[|x.key| - |m|..] == m
    ensures DumpMember(x) == BeforeString(m, x.key) + m + ("\"" + (":" + Dump(x.value)))
  {
    hide BeforeString, Dump, Escape;
    QuotedSplit(m, x.key);
    Regroup("", BeforeString(m, x.key), m, "\"", ":" + Dump(x.value));
    assert "" + Quoted(x.key) + (":" + Dump(x.value)) == DumpMember(x);
    assert "" + BeforeString(m, x.key) == BeforeString(m, x.key);
  }

  lemma {:induction false} ValueSplit(m: string, x: Member, before: string, after: string)
    requires Dump(x.value) == before + m + after
    ensures DumpMember(x) == ((Quoted(x.key) + ":") + before) + m + after
  {
    hide Quoted, Dump;
    Regroup(Quoted(x.key) + ":", before, m, after, "");
    assert after + "" == after;
    assert DumpMember(x) == (Quoted(x.key) + ":") + Dump(x.value) + "";
  }

  lemma {:induction false} LastMemberSplit(lead: string, m: string, members: seq<Member>, first: bool)
    requires Unescaped(m) && HealedMembers(lead, m, members, first) && |members| == 1
    ensures DumpMembers(members) == BeforeMembers(m, members) + m + AfterMembers(m, members)
    decreases members[0].value, 2
  {
    var x := members[0];
    if Occurs(x.key, m) {
      KeySplit(m, x);
    } else {
      NoMarkerInKey(lead, m, x.key);
      DumpSplit(lead, m, x.value, InMember);
      ValueSplit(m, x, BeforeJoin(m, x.value), AfterJoin(m, x.value));
    }
  }

  lemma {:induction false} NoMarkerInKey(lead: string, m: string, key: string)
    requires !Occurs(key, m)
    ensures !HealedString(lead, m, key)
  {
    assert HealedString(lead, m, key) ==> OccursAt(key, m, |key| - |m|);
  }

  // ----- the marker in a value and in its dump

  lemma {:induction false} OccursEscaped(s: string, m: string)
    requires Unescaped(m) && !Occurs(Escape(s), m)
    ensures !Occurs(s, m)
  {
    if Occurs(s, m) {
      var i :| 0 <= i <= |s| && OccursAt(s, m, i);
      var a, z := s[..i], s[i + |m|..];
      assert s == a + m + z;
      EscapeConcat(a + m, z);
      EscapeConcat(a, m);
      EscapeUnescaped(m);
      assert OccursAt(m, m, 0);
      OccursLonger(Escape(a), m, Escape(z), m);
    }
  }

  lemma {:induction false} QuotedFree(s: string, m: string)
    requires Unescaped(m) && !Occurs(Quoted(s), m)
    ensures !Occurs(s, m)
  {
    if Occurs(Escape(s), m) { OccursLonger("\"", Escape(s), "\"", m); }
    OccursEscaped(s, m);
  }

  /** A marker that is not in the dump is in no string and no key. */
  lemma {:induction false} DumpFree(m: string, j: Json)
    requires Unescaped(m) && !Occurs(Dump(j), m)
    ensures Free(m, j)
    decreases j, 1
  {
    match j {
      case Str(s) => QuotedFree(s, m);
      case Array(items) =>
        InnerFree("[", DumpItems(items), "]", m);
        DumpItemsFree(m, items);
      case Object(members) =>
        InnerFree("{", DumpMembers(members), "}", m);
        DumpMembersFree(m, members);
      case _ =>
    }
  }

  lemma {:induction false} DumpItemsFree(m: string, items: seq<Json>)
    requires Unescaped(m) && !Occurs(DumpItems(items), m)
    ensures Free(m, Array(items))
    decreases items, 0
  {
    if items != [] {
      FreeItemsParts(items, m);
      DumpFree(m, items[0]);
      DumpItemsFree(m, items[1..]);
      assert items == [items[0]] + items[1..];
    }
  }

  lemma {:induction false} DumpMembersFree(m: string, members: seq<Member>)
    requires Unescaped(m) && !Occurs(DumpMembers(members), m)
    ensures Free(m, Object(members))
    decreases members, 0
  {
    if members != [] {
      FreeMembersParts(members, m);
      FirstKeyFree(members, m);
      DumpFree(m, members[0].value);
      DumpMembersFree(m, members[1..]);
      assert members == [members[0]] + members[1..];
    }
  }

  lemma {:induction false} FirstKeyFree(members: seq<Member>, m: string)
    requires members != [] && Unescaped(m) && !Occurs(DumpMembers(members), m)
    ensures !Occurs(members[0].key, m)
  {
    var q, v := Quoted(members[0].key), Dump(members[0].value);
    if |members| > 1 {
      NotOccursParts(DumpMember(members[0]) + ",", DumpMembers(members[1..]), m);
      NotOccursParts(DumpMember(members[0]), ",", m);
    }
    NotOccursParts(q + ":", v, m);
    NotOccursParts(q, ":", m);
    QuotedFree(members[0].key, m);
  }

  // ----- cleaning when the dump marker is the marker itself

  /** Healing appended the marker to a string, so that `json_dump_marker` is the marker. */
  predicate BareConfig(cfg: Config) {
    ConfigFits(cfg, "") && cfg.marker != "" && Unescaped(cfg.marker)
  }

  lemma {:induction false} FrontIsFree(s: string, m: string)
    requires m != ""
    ensures Find(s, m, 0) >= 0 ==> Occurs(s, m) && !Occurs(s[..Find(s, m, 0)], m)
    ensures Find(s, m, 0) < 0 ==> !Occurs(s, m)
  {
    var p := Find(s, m, 0);
    if p >= 0 {
      var front := s[..p];
      assert s == front + s[p..];
      forall i | 0 <= i <= |front| ensures !OccursAt(front, m, i) {
        if i + |m| <= |front| { OccursInside(front, m, s[p..], i); }
      }
    }
  }

  /** A dumped argument never keeps the marker, and it is found whenever the value has it. */
  lemma {:induction false} ArgumentsBare(cfg: Config, j: Json)
    requires BareConfig(cfg)
    ensures var r := DumpedArguments(cfg, j);
            r.Cleaned? && Free(cfg.marker, r.value) && (!Free(cfg.marker, j) ==> r.found)
  {
    assert "" + cfg.marker == cfg.marker;
    FrontIsFree(Dump(j), cfg.marker);
    if !Occurs(Dump(j), cfg.marker) { DumpFree(cfg.marker, j); }
    assert !Occurs("", cfg.marker);
  }

  /** Cleaning anything but a bare string: whatever the marker is in, it is gone, and it is found. */
  lemma {:induction false} CleanBare(cfg: Config, j: Json, path: Path)
    requires BareConfig(cfg) && (j.Str? ==> path in cfg.argsPaths || path in cfg.contentPaths)
    ensures var r := Clean(cfg, j, path); r.Cleaned? ==> Free(cfg.marker, r.value) && (!Free(cfg.marker, j) ==> r.found)
    decreases j, 1
  {
    if path in cfg.argsPaths {
      ArgumentsBare(cfg, j);
    } else if path in cfg.contentPaths {
      if j.Str? { FrontIsFree(j.s, cfg.marker); }
    } else {
      match j {
        case Object(members) => CleanBareMembers(cfg, members, path, []);
        case Array(items) => CleanBareItems(cfg, items, path, []);
        case _ =>
      }
    }
  }

  lemma {:induction false} FreeFirstMember(m: string, members: seq<Member>)
    requires members != []
    ensures Free(m, Object(members)) <==> !Occurs(members[0].key, m) && Free(m, members[0].value) && Free(m, Object(members[1..]))
  {
    assert members == [members[0]] + members[1..];
  }

  lemma {:induction false} FreeFirstItem(m: string, items: seq<Json>)
    requires items != []
    ensures Free(m, Array(items)) <==> Free(m, items[0]) && Free(m, Array(items[1..]))
  {
    assert items == [items[0]] + items[1..];
  }

  lemma {:induction false} CleanBareMembers(cfg: Config, members: seq<Member>, path: Path, done: seq<Member>)
    requires BareConfig(cfg) && Free(cfg.marker, Object(done))
    ensures var r := CleanMembers(cfg, members, path, done);
            r.Cleaned? ==> Free(cfg.marker, r.value) && (!Free(cfg.marker, Object(members)) ==> r.found)
    decreases members, 0
  {
    if members != [] {
      var m := cfg.marker;
      var Member(key, value) := members[0];
      FreeFirstMember(m, members);
      if !Occurs(key, m) {
        if !value.Str? || (Occurs(value.s, m) && path + [key] in cfg.contentPaths) { CleanBare(cfg, value, path + [key]); }
        var v := if value.Str? && !Occurs(value.s, m) then Cleaned(value, false) else Clean(cfg, value, path + [key]);
        if v.Cleaned? && Free(m, v.value) {
          PutFree(m, done, key, v.value);
          CleanBareMembers(cfg, members[1..], path, Put(done, key, v.value));
        }
      }
    }
  }

  lemma {:induction false} CleanBareItems(cfg: Config, items: seq<Json>, path: Path, done: seq<Json>)
    requires BareConfig(cfg) && Free(cfg.marker, Array(done)) && path !in cfg.argsPaths && path !in cfg.contentPaths
    ensures var r := CleanItems(cfg, items, path, done);
            r.Cleaned? ==> Free(cfg.marker, r.value) && (!Free(cfg.marker, Array(items)) ==> r.found)
    decreases items, 0
  {
    if items != [] {
      var m := cfg.marker;
      FreeFirstItem(m, items);
      if !items[0].Str? { CleanBare(cfg, items[0], path); }
      var v := Clean(cfg, items[0], path);
      if v.Cleaned? && Free(m, v.value) { CleanBareItems(cfg, items[1..], path, done + [v.value]); }
    }
  }

  // ----- the lead stands right before the marker

  predicate EndsWith(s: string, t: string) { |t| <= |s| && s[|s| - |t|..] == t }

  lemma {:induction false} EndsWithLonger(x: string, s: string, t: string)
    requires EndsWith(s, t)
    ensures EndsWith(x + s, t)
  {
    assert (x + s)[|x + s| - |t|..] == s[|s| - |t|..];
  }

  lemma {:induction false} BackslashEnds(pre: string)
    requires pre != "" && pre[|pre| - 1] == '\\'
    ensures EndsWith(Escape(pre), "\\")
  {
    var shorter := pre[..|pre| - 1];
    assert pre == shorter + ['\\'];
    EscapeConcat(shorter, ['\\']);
    EscapeOne('\\');
    EndsWithLonger(Escape(shorter), "\\\\", "\\");
  }

  lemma {:induction false} StringEndsWithLead(lead: string, m: string, s: string, before: string)
    requires IsLead(lead) && HealedString(lead, m, s)
    requires |lead| == 2 ==> before == [lead[0]]
    ensures EndsWith(before + BeforeString(m, s), lead)
  {
    var pre := s[..|s| - |m|];
    if lead == "\\" {
      BackslashEnds(pre);
      EndsWithLonger("\"", Escape(pre), lead);
      EndsWithLonger(before, BeforeString(m, s), lead);
    } else if |lead| > 0 {
      EmptyBefore(m, s);
      assert |lead| == 2 ==> before + "\"" == lead;
      EndsWithLonger(before, "\"", "\"");
    }
  }

  lemma {:induction false} EmptyBefore(m: string, s: string)
    requires s == m
    ensures BeforeString(m, s) == "\""
  {
    assert s[..0] == "";
  }

  lemma {:induction false} JoinLater(a: string, b: string, c: string, d: string)
    ensures a + ((b + c) + d) == (a + b) + (c + d)
  {
  }

  /** What stands before the marker in the dump ends with the lead; for a container, inside the dump. */
  lemma {:induction false} LeadBeforeJoin(lead: string, m: string, j: Json, place: Place)
    requires IsLead(lead) && HealedAt(lead, m, j, place)
    ensures EndsWith(Before(place) + BeforeJoin(m, j), lead)
    ensures !j.Str? ==> EndsWith(BeforeJoin(m, j), lead)
    decreases j, 1
  {
    match j {
      case Str(s) => StringEndsWithLead(lead, m, s, Before(place));
      case Array(items) =>
        LeadBeforeItems(lead, m, items, true);
        EndsWithLonger(Before(place), BeforeJoin(m, j), lead);
      case Object(members) =>
        LeadBeforeMembers(lead, m, members, true);
        EndsWithLonger(Before(place), BeforeJoin(m, j), lead);
    }
  }

  lemma {:induction false} LeadBeforeItems(lead: string, m: string, items: seq<Json>, first: bool)
    requires IsLead(lead) && HealedItems(lead, m, items, first)
    ensures EndsWith((if first then "[" else ",") + BeforeItems(m, items), lead)
    decreases items, 0
  {
    var before := if first then "[" else ",";
    if |items| == 1 {
      LeadBeforeJoin(lead, m, items[0], if first then FirstItem else LaterItem);
    } else {
      LeadBeforeItems(lead, m, items[1..], false);
      EndsWithLonger(before + Dump(items[0]), "," + BeforeItems(m, items[1..]), lead);
      JoinLater(before, Dump(items[0]), ",", BeforeItems(m, items[1..]));
    }
  }

  lemma {:induction false} LeadBeforeMembers(lead: string, m: string, members: seq<Member>, first: bool)
    requires IsLead(lead) && HealedMembers(lead, m, members, first)
    ensures EndsWith((if first then "{" else ",") + BeforeMembers(m, members), lead)
    decreases members, 0
  {
    var before := if first then "{" else ",";
    if |members| > 1 {
      LeadBeforeMembers(lead, m, members[1..], false);
      EndsWithLonger(before + DumpMember(members[0]), "," + BeforeMembers(m, members[1..]), lead);
      JoinLater(before, DumpMember(members[0]), ",", BeforeMembers(m, members[1..]));
    } else {
      assert members == [members[0]];
      LeadBeforeLastMember(lead, m, members[0], first);
    }
  }

  lemma {:induction false} LeadBeforeLastMember(lead: string, m: string, member: Member, first: bool)
    requires IsLead(lead) && HealedMembers(lead, m, [member], first)
    ensures EndsWith((if first then "{" else ",") + BeforeMembers(m, [member]), lead)
    decreases member.value, 2
  {
    var before := if first then "{" else ",";
    var Member(key, value) := member;
    if Occurs(key, m) {
      StringEndsWithLead(lead, m, key, before);
    } else {
      NoMarkerInKey(lead, m, key);
      LeadBeforeJoin(lead, m, value, InMember);
      EndsWithLonger(before + Quoted(key), ":" + BeforeJoin(m, value), lead);
      JoinLater(before, Quoted(key), ":", BeforeJoin(m, value));
    }
  }

  // ----- cleaning a healed value

  /** A dumped argument that holds the join is cut right before `json_dump_marker`: the marker is gone. */
  lemma {:induction false} ArgumentsCut(cfg: Config, lead: string, j: Json, kept: string)
    requires ConfigFits(cfg, lead) && cfg.marker != ""
    requires Dump(j) == (kept + lead) + cfg.marker + AfterJoin(cfg.marker, j)
    requires FirstAt(Dump(j), cfg.marker, |kept + lead|)
    ensures var r := DumpedArguments(cfg, j);
            && r.Cleaned? && r.found && Free(cfg.marker, r.value)
            && (kept != "\"" ==> r.value == Str(kept))
  {
    CutText(Dump(j), kept, lead, cfg.marker, AfterJoin(cfg.marker, j));
    assert !Occurs("", cfg.marker);
  }

  lemma {:induction false} CutText(d: string, kept: string, lead: string, m: string, after: string)
    requires m != "" && d == (kept + lead) + m + after && FirstAt(d, m, |kept + lead|)
    ensures Find(d, lead + m, 0) == |kept| && d[..|kept|] == kept && !Occurs(kept, m)
  {
    FirstLead(kept, lead, m, after);
    assert d == kept + ((lead + m) + after);
    KeptFree(kept, (lead + m) + after, m, |kept + lead|);
  }

  lemma {:induction false} ContainerArgumentsCut(cfg: Config, lead: string, j: Json, place: Place)
    requires ConfigFits(cfg, lead) && cfg.marker != "" && Unescaped(cfg.marker) && IsLead(lead)
    requires HealedAt(lead, cfg.marker, j, place) && (j.Str? ==> lead == "")
    requires FirstAt(Dump(j), cfg.marker, |BeforeJoin(cfg.marker, j)|)
    ensures var r := DumpedArguments(cfg, j); r.Cleaned? && r.found && Free(cfg.marker, r.value)
  {
    var b := BeforeJoin(cfg.marker, j);
    DumpSplit(lead, cfg.marker, j, place);
    LeadBeforeJoin(lead, cfg.marker, j, place);
    assert EndsWith(b, lead);
    assert b == b[..|b| - |lead|] + lead;
    ArgumentsCut(cfg, lead, j, b[..|b| - |lead|]);
  }

  lemma {:induction false} FirstLead(kept: string, lead: string, m: string, after: string)
    requires m != "" && FirstAt((kept + lead) + m + after, m, |kept + lead|)
    ensures (kept + lead) + m + after == kept + (lead + m) + after
    ensures Find(kept + (lead + m) + after, lead + m, 0) == |kept|
  {
    var text := kept + (lead + m) + after;
    assert text == (kept + lead) + m + after;
    assert text[|kept|..|kept| + |lead + m|] == lead + m;
    forall i | 0 <= i < |kept| ensures !OccursAt(text, lead + m, i) {
      assert !OccursAt(text, m, i + |lead|);
      LeadThenMarker(text, lead, m, i);
    }
    FindIs(text, lead + m, 0, |kept|);
  }

  lemma {:induction false} LeadThenMarker(text: string, lead: string, m: string, i: nat)
    ensures OccursAt(text, lead + m, i) ==> OccursAt(text, m, i + |lead|)
  {
    if OccursAt(text, lead + m, i) {
      assert text[i + |lead|..i + |lead| + |m|] == text[i..i + |lead + m|][|lead|..] == m;
    }
  }

  lemma {:induction false} KeptFree(kept: string, rest: string, m: string, p: nat)
    requires m != "" && FirstAt(kept + rest, m, p) && p >= |kept|
    ensures !Occurs(kept, m)
  {
    forall i | 0 <= i <= |kept| ensures !OccursAt(kept, m, i) {
      if i + |m| <= |kept| { OccursInside(kept, m, rest, i); }
    }
  }

  lemma {:induction false} HealedStringCut(lead: string, m: string, s: string)
    requires m != "" && HealedString(lead, m, s)
    ensures Occurs(s, m) && Find(s, m, 0) == |s| - |m| && !Occurs(s[..|s| - |m|], m)
  {
    assert OccursAt(s, m, |s| - |m|);
    FindIs(s, m, 0, |s| - |m|);
    assert s == s[..|s| - |m|] + m;
    KeptFree(s[..|s| - |m|], m, m, |s| - |m|);
  }

  /** Inside an object the marker still comes first at the join. */
  lemma {:induction false} ObjectJoin(lead: string, m: string, members: seq<Member>)
    requires m != "" && HealedMembers(lead, m, members, true) && Unescaped(m) && IsLead(lead)
    requires FirstAt(Dump(Object(members)), m, |BeforeJoin(m, Object(members))|)
    ensures FirstAt(DumpMembers(members), m, |BeforeMembers(m, members)|)
  {
    MembersSplit(lead, m, members, true);
    FirstAtInner("{", BeforeMembers(m, members), m, AfterMembers(m, members), "}");
  }

  lemma {:induction false} ArrayJoin(lead: string, m: string, items: seq<Json>)
    requires m != "" && HealedItems(lead, m, items, true) && Unescaped(m) && IsLead(lead)
    requires FirstAt(Dump(Array(items)), m, |BeforeJoin(m, Array(items))|)
    ensures FirstAt(DumpItems(items), m, |BeforeItems(m, items)|)
  {
    ItemsSplit(lead, m, items, true);
    FirstAtInner("[", BeforeItems(m, items), m, AfterItems(m, items), "]");
  }

  /** A healed value has the marker. */
  lemma {:induction false} HealedNotFree(lead: string, m: string, j: Json, place: Place)
    requires HealedAt(lead, m, j, place)
    ensures !Free(m, j)
    decreases j, 1
  {
    match j {
      case Str(s) => assert OccursAt(s, m, |s| - |m|);
      case Array(items) => HealedItemsNotFree(lead, m, items, true);
      case Object(members) => HealedMembersNotFree(lead, m, members, true);
    }
  }

  lemma {:induction false} HealedItemsNotFree(lead: string, m: string, items: seq<Json>, first: bool)
    requires HealedItems(lead, m, items, first)
    ensures !Free(m, Array(items))
    decreases items, 0
  {
    FreeFirstItem(m, items);
    if |items| == 1 {
      HealedNotFree(lead, m, items[0], if first then FirstItem else LaterItem);
    } else {
      HealedItemsNotFree(lead, m, items[1..], false);
    }
  }

  lemma {:induction false} HealedMembersNotFree(lead: string, m: string, members: seq<Member>, first: bool)
    requires HealedMembers(lead, m, members, first)
    ensures !Free(m, Object(members))
    decreases members, 0
  {
    FreeFirstMember(m, members);
    if |members| > 1 {
      HealedMembersNotFree(lead, m, members[1..], false);
    } else if !Occurs(members[0].key, m) {
      NoMarkerInKey(lead, m, members[0].key);
      HealedNotFree(lead, m, members[0].value, InMember);
    }
  }

  /** Cleaning a healed object or array: unless a content path is misused, the marker is gone from every
      key, string and dumped argument, and the result is flagged partial.  Where the branch wrote something
      before the marker, the marker must come first there in the dump. */
  lemma {:induction false} CleanHealed(cfg: Config, lead: string, j: Json, path: Path, place: Place)
    requires ConfigFits(cfg, lead) && cfg.marker != "" && Unescaped(cfg.marker) && IsLead(lead)
    requires HealedAt(lead, cfg.marker, j, place) && !j.Str?
    requires lead != "" ==> FirstAt(Dump(j), cfg.marker, |BeforeJoin(cfg.marker, j)|)
    ensures var r := Clean(cfg, j, path); r.Cleaned? ==> Free(cfg.marker, r.value) && r.found
  {
    if lead == "" {
      HealedNotFree(lead, cfg.marker, j, place);
      CleanBare(cfg, j, path);
    } else {
      CleanHealedFirst(cfg, lead, j, path, place);
    }
  }

  lemma {:induction false} CleanHealedFirst(cfg: Config, lead: string, j: Json, path: Path, place: Place)
    requires ConfigFits(cfg, lead) && cfg.marker != "" && Unescaped(cfg.marker) && IsLead(lead)
    requires HealedAt(lead, cfg.marker, j, place) && !j.Str?
    requires FirstAt(Dump(j), cfg.marker, |BeforeJoin(cfg.marker, j)|)
    ensures var r := Clean(cfg, j, path); r.Cleaned? ==> Free(cfg.marker, r.value) && r.found
    decreases j, 1
  {
    var m := cfg.marker;
    if path in cfg.argsPaths {
      ContainerArgumentsCut(cfg, lead, j, place);
    } else if path !in cfg.contentPaths {
      match j {
        case Object(members) =>
          ObjectJoin(lead, m, members);
          CleanHealedMembers(cfg, lead, members, path, [], true);
        case Array(items) =>
          ArrayJoin(lead, m, items);
          CleanHealedItems(cfg, lead, items, path, [], true);
      }
    }
  }

  lemma {:induction false} FirstAtInner(x: string, b: string, m: string, a: string, y: string)
    requires m != "" && FirstAt(x + (b + m + a) + y, m, |x| + |b|)
    ensures FirstAt(b + m + a, m, |b|) && !Occurs(x, m)
  {
    var t := b + m + a;
    assert x + t + y == x + (t + y);
    FirstAtSuffix(x, t + y, m, |b|);
    FirstAtPrefix(t, y, m, |b|);
  }

  lemma {:induction false} ItemJoin(lead: string, m: string, items: seq<Json>)
    requires HealedItems(lead, m, items, false) || HealedItems(lead, m, items, true)
    requires m != "" && |items| > 1 && Unescaped(m)
    requires FirstAt(DumpItems(items), m, |BeforeItems(m, items)|)
    ensures FirstAt(DumpItems(items[1..]), m, |BeforeItems(m, items[1..])|) && !Occurs(Dump(items[0]), m)
  {
    ItemsSplit(lead, m, items[1..], false);
    FirstAtSuffix(Dump(items[0]) + ",", DumpItems(items[1..]), m, |BeforeItems(m, items[1..])|);
    NotOccursParts(Dump(items[0]), ",", m);
  }

  lemma {:induction false} CleanHealedItems(cfg: Config, lead: string, items: seq<Json>, path: Path, done: seq<Json>, first: bool)
    requires ConfigFits(cfg, lead) && cfg.marker != "" && Unescaped(cfg.marker) && IsLead(lead)
    requires HealedItems(lead, cfg.marker, items, first) && Free(cfg.marker, Array(done)) && path !in cfg.contentPaths
    requires FirstAt(DumpItems(items), cfg.marker, |BeforeItems(cfg.marker, items)|)
    ensures var r := CleanItems(cfg, items, path, done); r.Cleaned? ==> Free(cfg.marker, r.value) && r.found
    decreases items, 0
  {
    var m := cfg.marker;
    var v := Clean(cfg, items[0], path);
    if |items| > 1 {
      ItemJoin(lead, m, items);
      CleanFree(cfg, lead, items[0], path);
      if v.Cleaned? { CleanHealedItems(cfg, lead, items[1..], path, done + [v.value], false); }
    } else if items[0].Str? {
      HealedStringCut(lead, m, items[0].s);
    } else {
      CleanHealedFirst(cfg, lead, items[0], path, if first then FirstItem else LaterItem);
      if v.Cleaned? { assert CleanItems(cfg, items[1..], path, done + [v.value]) == Cleaned(Array(done + [v.value]), false); }
    }
  }

  lemma {:induction false} CleanHealedMembers(cfg: Config, lead: string, members: seq<Member>, path: Path, done: seq<Member>, first: bool)
    requires ConfigFits(cfg, lead) && cfg.marker != "" && Unescaped(cfg.marker) && IsLead(lead)
    requires HealedMembers(lead, cfg.marker, members, first) && Free(cfg.marker, Object(done))
    requires FirstAt(DumpMembers(members), cfg.marker, |BeforeMembers(cfg.marker, members)|)
    ensures var r := CleanMembers(cfg, members, path, done); r.Cleaned? ==> Free(cfg.marker, r.value) && r.found
    decreases members, 0
  {
    var m := cfg.marker;
    var Member(key, value) := members[0];
    if |members| > 1 {
      FirstAtSuffix(DumpMember(members[0]) + ",", DumpMembers(members[1..]), m, |BeforeMembers(m, members[1..])|);
      NotOccursParts(DumpMember(members[0]), ",", m);
      NotOccursParts(Quoted(key) + ":", Dump(value), m);
      if value.Str? {
        PutFree(m, done, key, value);
        CleanHealedMembers(cfg, lead, members[1..], path, Put(done, key, value), false);
      } else {
        CleanFree(cfg, lead, value, path + [key]);
        var v := Clean(cfg, value, path + [key]);
        if v.Cleaned? {
          PutFree(m, done, key, v.value);
          CleanHealedMembers(cfg, lead, members[1..], path, Put(done, key, v.value), false);
        }
      }
    } else {
      CleanHealedLast(cfg, lead, members[0], path, done, first);
      assert members == [members[0]];
    }
  }

  lemma {:induction false} CleanHealedLast(cfg: Config, lead: string, member: Member, path: Path, done: seq<Member>, first: bool)
    requires ConfigFits(cfg, lead) && cfg.marker != "" && Unescaped(cfg.marker) && IsLead(lead)
    requires HealedMembers(lead, cfg.marker, [member], first) && Free(cfg.marker, Object(done))
    requires FirstAt(DumpMember(member), cfg.marker, |BeforeMembers(cfg.marker, [member])|)
    ensures var r := CleanMembers(cfg, [member], path, done); r.Cleaned? ==> Free(cfg.marker, r.value) && r.found
    decreases member.value, 2
  {
    var m := cfg.marker;
    var Member(key, value) := member;
    if !Occurs(key, m) {
      NoMarkerInKey(lead, m, key);
      FirstAtSuffix(Quoted(key) + ":", Dump(value), m, |BeforeJoin(m, value)|);
      if value.Str? {
        CleanHealedString(cfg, lead, value, path + [key]);
      } else {
        CleanHealedFirst(cfg, lead, value, path + [key], InMember);
      }
      var v := Clean(cfg, value, path + [key]);
      if v.Cleaned? && Free(m, v.value) { PutFree(m, done, key, v.value); }
      assert [member][1..] == [];
    }
  }

  /** A healed string under its key: found, and without the marker when it is kept at all. */
  lemma {:induction false} CleanHealedString(cfg: Config, lead: string, j: Json, path: Path)
    requires ConfigFits(cfg, lead) && cfg.marker != "" && Unescaped(cfg.marker) && IsLead(lead)
    requires HealedAt(lead, cfg.marker, j, InMember) && j.Str?
    requires FirstAt(Dump(j), cfg.marker, |BeforeJoin(cfg.marker, j)|)
    ensures Occurs(j.s, cfg.marker)
    ensures path in cfg.contentPaths && lead == "" ==> Clean(cfg, j, path).Cleaned? && Free(cfg.marker, Clean(cfg, j, path).value)
  {
    HealedStringCut(lead, cfg.marker, j.s);
    if path in cfg.argsPaths && lead == "" {
      ContainerArgumentsCut(cfg, lead, j, InMember);
    }
  }

  lemma {:induction false} HealedIsRightmost(lead: string, m: string, j: Json, place: Place)
    requires HealedAt(lead, m, j, place)
    ensures Rightmost(m, j)
    decreases j, 1
  {
    match j {
      case Str(_) =>
      case Array(items) => HealedItemsRightmost(lead, m, items, true);
      case Object(members) => HealedMembersRightmost(lead, m, members, true);
    }
  }

  lemma {:induction false} HealedItemsRightmost(lead: string, m: string, items: seq<Json>, first: bool)
    requires HealedItems(lead, m, items, first)
    ensures Rightmost(m, Array(items))
    decreases items, 0
  {
    if |items| == 1 {
      HealedIsRightmost(lead, m, items[0], if first then FirstItem else LaterItem);
    } else {
      HealedItemsRightmost(lead, m, items[1..], false);
      assert items[1..][|items| - 2] == items[|items| - 1];
      forall i | 0 <= i < |items| - 1 ensures Free(m, items[i]) {
        if i > 0 { assert items[i] == items[1..][i - 1]; }
      }
    }
  }

  lemma {:induction false} HealedMembersRightmost(lead: string, m: string, members: seq<Member>, first: bool)
    requires HealedMembers(lead, m, members, first)
    ensures Rightmost(m, Object(members))
    decreases members, 0
  {
    if |members| == 1 {
      if !Occurs(members[0].key, m) {
        NoMarkerInKey(lead, m, members[0].key);
        HealedIsRightmost(lead, m, members[0].value, InMember);
      }
    } else {
      HealedMembersRightmost(lead, m, members[1..], false);
      assert members[1..][|members| - 2] == members[|members| - 1];
      forall i | 0 <= i < |members| - 1 ensures !Occurs(members[i].key, m) && Free(m, members[i].value) {
        if i > 0 { assert members[i] == members[1..][i - 1]; }
      }
    }
  }

  /** The whole call on an object or array: it is flagged partial exactly when the JSON was healed, the
      result has the parser's marker nowhere, and the value fits the method that shares one path. */
  lemma {:induction false} PartialExactlyWhenHealed(cfg: Config, lead: string, j: Json)
    requires ConfigFits(cfg, lead) && (j.Array? || j.Object?)
    requires if cfg.marker == "" then Free(cfg.parserMarker, j) && !Occurs(Dump(j), cfg.parserMarker)
             else Unescaped(cfg.marker) && IsLead(lead) && HealedAt(lead, cfg.marker, j, InMember) &&
                  (lead != "" ==> FirstAt(Dump(j), cfg.marker, |BeforeJoin(cfg.marker, j)|))
    ensures Rightmost(cfg.parserMarker, j)
    ensures var r := Consume(cfg, j);
            r.Cleaned? ==> Free(cfg.parserMarker, r.value) && (r.found <==> cfg.marker != "")
  {
    if cfg.marker == "" {
      FreeIsRightmost(cfg.parserMarker, j);
      CleanFree(cfg, lead, j, []);
    } else {
      HealedIsRightmost(lead, cfg.marker, j, InMember);
      CleanHealed(cfg, lead, j, [], InMember);
    }
  }

  // ----- what cleaning keeps

  /** A value without the marker, with no path to dump or cut, comes back unchanged. */
  lemma {:induction false} CleanKeeps(cfg: Config, j: Json, path: Path)
    requires cfg.argsPaths == [] && cfg.contentPaths == [] && Free(cfg.parserMarker, j) && DistinctKeys(j)
    ensures Clean(cfg, j, path) == Cleaned(j, false)
    decreases j, 1
  {
    match j {
      case Object(members) => CleanKeepsMembers(cfg, members, path, 0);
      case Array(items) => CleanKeepsItems(cfg, items, path, 0);
      case _ =>
    }
  }

  lemma {:induction false} CleanKeepsMembers(cfg: Config, members: seq<Member>, path: Path, i: nat)
    requires cfg.argsPaths == [] && cfg.contentPaths == []
    requires Free(cfg.parserMarker, Object(members)) && DistinctKeys(Object(members)) && i <= |members|
    ensures CleanMembers(cfg, members[i..], path, members[..i]) == Cleaned(Object(members), false)
    decreases Object(members), 0, |members| - i
  {
    if i < |members| {
      var Member(key, value) := members[i];
      CleanKeeps(cfg, value, path + [key]);
      PutNew(members[..i], key, value);
      assert members[..i] + [Member(key, value)] == members[..i + 1];
      assert members[i..][1..] == members[i + 1..];
      CleanKeepsMembers(cfg, members, path, i + 1);
    } else {
      assert members[..i] == members;
    }
  }

  lemma {:induction false} CleanKeepsItems(cfg: Config, items: seq<Json>, path: Path, i: nat)
    requires cfg.argsPaths == [] && cfg.contentPaths == []
    requires Free(cfg.parserMarker, Array(items)) && DistinctKeys(Array(items)) && i <= |items|
    ensures CleanItems(cfg, items[i..], path, items[..i]) == Cleaned(Array(items), false)
    decreases Array(items), 0, |items| - i
  {
    if i < |items| {
      CleanKeeps(cfg, items[i], path);
      assert items[..i] + [items[i]] == items[..i + 1];
      assert items[i..][1..] == items[i + 1..];
      CleanKeepsItems(cfg, items, path, i + 1);
    } else {
      assert items[..i] == items;
    }
  }
}
