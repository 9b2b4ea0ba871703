/** Removing the healing marker from a healed JSON value and dumping argument subtrees:
    `try_consume_json_with_dumped_args`. */
module JsonClean {
  import opened JsonValue
  import opened Text

  type Path = seq<string>

  /** What the recursion captures.  `marker` and `dumpMarker` are empty when the JSON was not healed;
      `parserMarker` is the marker the parser drew. */
  datatype Config = Config(
    argsPaths: seq<Path>, contentPaths: seq<Path>, isPartial: bool,
    marker: string, dumpMarker: string, parserMarker: string)

  /** A value and whether the marker was found, or a thrown error. */
  datatype Cleaned = Cleaned(value: Json, found: bool) | Throws

  // ----- the steps of the recursion

  /** A dumped argument, cut at `json_dump_marker`. */
  function DumpedArguments(cfg: Config, j: Json): Cleaned {
    var arguments := Dump(j);
    if cfg.isPartial && cfg.marker != "" then
      var idx := Find(arguments, cfg.dumpMarker, 0);
      var cut := if idx >= 0 then arguments[..idx] else arguments;
      Cleaned(Str(if cut == "\"" then "" else cut), idx >= 0)
    else Cleaned(Str(arguments), false)
  }

  function CutContent(cfg: Config, j: Json): Cleaned {
    if !j.Str? then Throws
    else
      var idx := Find(j.s, cfg.marker, 0);
      if idx >= 0 then Cleaned(Str(j.s[..idx]), true) else Cleaned(j, false)
  }

  /** The recursion, each node with its true key path. */
  function Clean(cfg: Config, j: Json, path: Path): Cleaned
    decreases j, 1
  {
    if path in cfg.argsPaths then DumpedArguments(cfg, j)
    else if path in cfg.contentPaths then CutContent(cfg, j)
    else match j
      case Object(members) => CleanMembers(cfg, members, path, [])
      case Array(items) => CleanItems(cfg, items, path, [])
      case _ => Cleaned(j, false)
  }

  function CleanMembers(cfg: Config, members: seq<Member>, path: Path, done: seq<Member>): Cleaned
    decreases members, 0
  {
    if members == [] then Cleaned(Object(done), false)
    else
      var Member(key, value) := members[0];
      if Occurs(key, cfg.parserMarker) then Cleaned(Object(done), true)
      else if value.Str? && Occurs(value.s, cfg.parserMarker) then
        if path + [key] in cfg.contentPaths && cfg.marker == cfg.dumpMarker then
          match Clean(cfg, value, path + [key])
          case Throws => Throws
          case Cleaned(v, _) => Cleaned(Object(Put(done, key, v)), true)
        else Cleaned(Object(done), true)
      else if value.Str? then CleanMembers(cfg, members[1..], path, Put(done, key, value))
      else
        match Clean(cfg, value, path + [key])
        case Throws => Throws
        case Cleaned(v, found) => Also(found, CleanMembers(cfg, members[1..], path, Put(done, key, v)))
  }

  function CleanItems(cfg: Config, items: seq<Json>, path: Path, done: seq<Json>): Cleaned
    decreases items, 0
  {
    if items == [] then Cleaned(Array(done), false)
    else if items[0].Str? && Occurs(items[0].s, cfg.parserMarker) then Cleaned(Array(done), true)
    else
      match Clean(cfg, items[0], path)
      case Throws => Throws
      case Cleaned(v, found) => Also(found, CleanItems(cfg, items[1..], path, done + [v]))
  }

  function Also(found: bool, rest: Cleaned): Cleaned {
    match rest
    case Throws => Throws
    case Cleaned(v, f) => Cleaned(v, found || f)
  }

  /** What is left to do, with the flag as it is now, gives what the whole gives with the flag as it was. */
  predicate Continues(whole: Cleaned, before: bool, rest: Cleaned, now: bool) {
    match whole
    case Throws => rest.Throws?
    case Cleaned(v, f) => rest.Cleaned? && rest.value == v && (before || f) == (now || rest.found)
  }

  // ----- where the marker is

  /** The marker is in no string and no key. */
  predicate Free(m: string, j: Json)
    decreases j
  {
    match j
    case Str(s) => !Occurs(s, m)
    case Array(items) => forall i :: 0 <= i < |items| ==> Free(m, items[i])
    case Object(members) => forall i :: 0 <= i < |members| ==> !Occurs(members[i].key, m) && Free(m, members[i].value)
    case _ => true
  }

  /** The marker is at most in the rightmost leaf, or in the last key of the innermost rightmost object. */
  predicate Rightmost(m: string, j: Json)
    decreases j
  {
    match j
    case Array(items) =>
      |items| > 0 ==> (forall i :: 0 <= i < |items| - 1 ==> Free(m, items[i])) && Rightmost(m, items[|items| - 1])
    case Object(members) =>
      |members| > 0 ==>
        (forall i :: 0 <= i < |members| - 1 ==> !Occurs(members[i].key, m) && Free(m, members[i].value)) &&
        (Occurs(members[|members| - 1].key, m) || Rightmost(m, members[|members| - 1].value))
    case _ => true
  }

  lemma {:induction false} FreeIsRightmost(m: string, j: Json)
    requires Free(m, j)
    ensures Rightmost(m, j)
    decreases j
  {
    match j {
      case Array(items) => if |items| > 0 { FreeIsRightmost(m, items[|items| - 1]); }
      case Object(members) => if |members| > 0 { FreeIsRightmost(m, members[|members| - 1].value); }
      case _ =>
    }
  }

  // ----- the recursion as the source runs it: a shared path, popped only when no break skips it

  class Cleaner {
    const cfg: Config
    var path: Path
    var foundHealingMarker: bool

    constructor (cfg: Config)
      ensures this.cfg == cfg && path == [] && !foundHealingMarker
    {
      this.cfg := cfg;
      path := [];
      foundHealingMarker := false;
    }

    /** With the marker at most in the rightmost place, every node is looked up under its true path, even
        though a `break` leaves its key on the shared path. */
    method Remove(j: Json) returns (r: Cleaned)
      modifies this
      ensures old(path) <= path
      ensures r.Cleaned? ==> r.found == foundHealingMarker
      ensures Free(cfg.parserMarker, j) && !r.Throws? ==> path == old(path)
      ensures Rightmost(cfg.parserMarker, j) ==>
                match Clean(cfg, j, old(path))
                case Throws => r.Throws?
                case Cleaned(v, f) => r.Cleaned? && r.value == v && foundHealingMarker == (old(foundHealingMarker) || f)
      decreases j, 1
    {
      if path in cfg.argsPaths {
        r := DumpedArguments(cfg, j);
        foundHealingMarker := foundHealingMarker || r.found;
        return Cleaned(r.value, foundHealingMarker);
      }
      if path in cfg.contentPaths {
        r := CutContent(cfg, j);
        if r.Throws? { return; }
        foundHealingMarker := foundHealingMarker || r.found;
        return Cleaned(r.value, foundHealingMarker);
      }
      match j {
        case Object(members) => r := RemoveMembers(members);
        case Array(items) => r := RemoveItems(items);
        case _ => r := Cleaned(j, foundHealingMarker);
      }
    }

    method RemoveMembers(members: seq<Member>) returns (r: Cleaned)
      modifies this
      ensures old(path) <= path
      ensures r.Cleaned? ==> r.found == foundHealingMarker
      ensures Free(cfg.parserMarker, Object(members)) && !r.Throws? ==> path == old(path)
      ensures Rightmost(cfg.parserMarker, Object(members)) ==>
                match CleanMembers(cfg, members, old(path), [])
                case Throws => r.Throws?
                case Cleaned(v, f) => r.Cleaned? && r.value == v && foundHealingMarker == (old(foundHealingMarker) || f)
      decreases members, 0
    {
      var obj: seq<Member> := [];
      var i := 0;
      ghost var truePath := path;
      ghost var before := foundHealingMarker;
      ghost var ok := Rightmost(cfg.parserMarker, Object(members));
      while i < |members|
        invariant 0 <= i <= |members|
        invariant truePath <= path
        invariant Free(cfg.parserMarker, Object(members)) ==> path == truePath
        invariant ok && i < |members| ==> path == truePath
        invariant ok ==> Continues(CleanMembers(cfg, members, truePath, []), before,
                                   CleanMembers(cfg, members[i..], truePath, obj), foundHealingMarker)
      {
        var key, value := members[i].key, members[i].value;
        assert members[i] in members && members[i..][0] == members[i] && members[i..][1..] == members[i + 1..];
        if Occurs(key, cfg.parserMarker) {
          foundHealingMarker := true;
          break;
        }
        if i < |members| - 1 && ok { FreeIsRightmost(cfg.parserMarker, value); }
        path := path + [key];
        if value.Str? {
          if Occurs(value.s, cfg.parserMarker) {
            assert !Free(cfg.parserMarker, value);
            foundHealingMarker := true;
            if path in cfg.contentPaths && cfg.marker == cfg.dumpMarker {
              var v := Remove(value);
              if v.Throws? { return Throws; }
              obj := Put(obj, key, v.value);
            }
            break;
          }
          obj := Put(obj, key, value);
        } else {
          var v := Remove(value);
          if v.Throws? { return Throws; }
          obj := Put(obj, key, v.value);
        }
        path := path[..|path| - 1];
        i := i + 1;
      }
      r := Cleaned(Object(obj), foundHealingMarker);
    }

    method RemoveItems(items: seq<Json>) returns (r: Cleaned)
      modifies this
      ensures old(path) <= path
      ensures r.Cleaned? ==> r.found == foundHealingMarker
      ensures Free(cfg.parserMarker, Array(items)) && !r.Throws? ==> path == old(path)
      ensures Rightmost(cfg.parserMarker, Array(items)) ==>
                match CleanItems(cfg, items, old(path), [])
                case Throws => r.Throws?
                case Cleaned(v, f) => r.Cleaned? && r.value == v && foundHealingMarker == (old(foundHealingMarker) || f)
      decreases items, 0
    {
      var arr: seq<Json> := [];
      var i := 0;
      ghost var truePath := path;
      ghost var before := foundHealingMarker;
      ghost var ok := Rightmost(cfg.parserMarker, Array(items));
      while i < |items|
        invariant 0 <= i <= |items|
        invariant truePath <= path
        invariant Free(cfg.parserMarker, Array(items)) ==> path == truePath
        invariant ok && i < |items| ==> path == truePath
        invariant ok ==> Continues(CleanItems(cfg, items, truePath, []), before,
                                   CleanItems(cfg, items[i..], truePath, arr), foundHealingMarker)
      {
        assert items[i] in items && items[i..][0] == items[i] && items[i..][1..] == items[i + 1..];
        if items[i].Str? && Occurs(items[i].s, cfg.parserMarker) {
          foundHealingMarker := true;
          break;
        }
        if i < |items| - 1 && ok { FreeIsRightmost(cfg.parserMarker, items[i]); }
        var v := Remove(items[i]);
        if v.Throws? { return Throws; }
        arr := arr + [v.value];
        i := i + 1;
      }
      r := Cleaned(Array(arr), foundHealingMarker);
    }
  }

  /** The whole call on a parsed value. */
  function Consume(cfg: Config, j: Json): Cleaned {
    if cfg.marker == "" && cfg.argsPaths == [] then Cleaned(j, false)
    else if cfg.marker == "" && [] in cfg.argsPaths then Cleaned(Str(Dump(j)), false)
    else Clean(cfg, j, [])
  }

  method ConsumeJsonWithDumpedArgs(cfg: Config, j: Json) returns (r: Cleaned)
    ensures Rightmost(cfg.parserMarker, j) ==> r == Consume(cfg, j)
  {
    if cfg.marker == "" {
      if cfg.argsPaths == [] {
        return Cleaned(j, false);
      }
      if [] in cfg.argsPaths {
        return Cleaned(Str(Dump(j)), false);
      }
    }
    var cleaner := new Cleaner(cfg);
    r := cleaner.Remove(j);
  }
}
