/**
 * The decision and collection logic of the `exportConfig` command
 * (pkg/config/module.go): choosing the output handler by style, the open
 * flags each handler uses, the default configs the config module exports,
 * selecting configs by command arguments, which configs the YAML handler
 * appends and how the JSON handler folds configs into the existing map.
 */
module ConfigExport {
  import opened Wrappers

  /** A configuration value: Go's `interface{}` restricted to strings and nested string-keyed maps. */
  datatype Value = Str(s: string) | Obj(fields: map<string, Value>)

  /** contract.ExportedConfig: a named block of default configuration with a comment. */
  datatype ExportedConfig = ExportedConfig(name: string, data: map<string, Value>, comment: string)

  /** The map decoded from the existing output file; `None` is Go's nil map. */
  type ConfMap = Option<map<string, Value>>

  /** The two output handlers, `jsonHandler` and `yamlHandler`. */
  datatype Handler = JsonHandler | YamlHandler

  /** The os.OpenFile flags the handlers combine. */
  datatype OpenFlag = Append | Create | ReadWrite

  datatype StyleError = UnsupportedStyle(style: string)

  // ---------------------------------------------------------------------------
  // getHandler and flags

  /** getHandler: "json" and "yaml" select their handler; every other style is an error naming it. */
  function GetHandler(style: string): (r: Result<Handler, StyleError>)
    ensures r == Ok(JsonHandler) <==> style == "json"
    ensures r == Ok(YamlHandler) <==> style == "yaml"
    ensures r.Err? <==> style != "json" && style != "yaml"
    ensures r.Err? ==> r.error == UnsupportedStyle(style)
  {
    match style
    case "json" => Ok(JsonHandler)
    case "yaml" => Ok(YamlHandler)
    case _ => Err(UnsupportedStyle(style))
  }

  /** The style name under which each handler is selected. */
  function StyleName(h: Handler): string
  {
    match h
    case JsonHandler => "json"
    case YamlHandler => "yaml"
  }

  /** Every handler is reachable from exactly its own style name. */
  lemma GetHandlerStyleName(h: Handler, style: string)
    ensures GetHandler(StyleName(h)) == Ok(h)
    ensures GetHandler(style) == Ok(h) ==> style == StyleName(h)
  {
  }

  /** flags: both handlers create and open read-write; only the YAML handler appends. */
  function Flags(h: Handler): (r: set<OpenFlag>)
    ensures Create in r && ReadWrite in r
    ensures Append in r <==> h == YamlHandler
  {
    match h
    case YamlHandler => {Append, Create, ReadWrite}
    case JsonHandler => {Create, ReadWrite}
  }

  // ---------------------------------------------------------------------------
  // Module.ProvideConfig

  function Names(cs: seq<ExportedConfig>): (r: seq<string>)
    ensures |r| == |cs|
    ensures forall i :: 0 <= i < |cs| ==> r[i] == cs[i].name
  {
    if cs == [] then [] else [cs[0].name] + Names(cs[1..])
  }

  /** A default exported under its own name: its data holds the one key `name`. */
  function Default(name: string, value: Value, comment: string): (r: ExportedConfig)
    ensures r.name == name && r.data.Keys == {name} && r.data[name] == value && r.comment == comment
  {
    ExportedConfig(name, map[name := value], comment)
  }

  // The comments the defaults are exported with.
  const NameComment: string := "The name of the application"
  const VersionComment: string := "The version of the application"
  const EnvComment: string := "The environment of the application, one of production, development, staging, testing or local"
  const HttpComment: string := "The http address"
  const GrpcComment: string := "The gRPC address"

  /** The defaults of the config module: application name, version, environment and two addresses. */
  function ProvideConfig(): (r: seq<ExportedConfig>)
    ensures |r| == 5
    ensures forall i :: 0 <= i < |r| ==> r[i].data.Keys == {r[i].name}
    ensures forall i :: 0 <= i < |r| ==> r[i].comment != ""
  {
    [ Default("name", Str("skeleton"), NameComment),
      Default("version", Str("0.1.0"), VersionComment),
      Default("env", Str("local"),
              EnvComment),
      Default("http", Obj(map["addr" := Str(":8080")]), HttpComment),
      Default("grpc", Obj(map["addr" := Str(":9090")]), GrpcComment) ]
  }

  /** The five defaults are `name`, `version`, `env`, `http` and `grpc`. */
  lemma ProvideConfigNames()
    ensures Names(ProvideConfig()) == ["name", "version", "env", "http", "grpc"]
  {
    var r := ProvideConfig();
    var ns := ["name", "version", "env", "http", "grpc"];
    assert forall i :: 0 <= i < 5 ==> Names(r)[i] == ns[i];
  }

  /** No two defaults share a name. */
  lemma ProvideConfigDistinct()
    ensures forall i, j :: 0 <= i < j < |ProvideConfig()| ==> ProvideConfig()[i].name != ProvideConfig()[j].name
  {
    var r := ProvideConfig();
    var ns := ["name", "version", "env", "http", "grpc"];
    assert ns[0][0] == 'n' && ns[1][0] == 'v' && ns[2][0] == 'e' && ns[3][0] == 'h' && ns[4][0] == 'g';
    assert forall i :: 0 <= i < 5 ==> r[i].name == ns[i];
  }

  // ---------------------------------------------------------------------------
  // Collecting the exported configs and selecting them by argument

  /** A module of the container: `Some(configs)` when it is a Provider, `None` otherwise. */
  type ModuleEntry = Option<seq<ExportedConfig>>

  /** The providers' configs concatenated in module order. */
  function Exported(modules: seq<ModuleEntry>): seq<ExportedConfig>
  {
    if modules == [] then []
    else (match modules[0] case Some(cs) => cs case None => []) + Exported(modules[1..])
  }

  /** A config is exported iff some module that is a Provider lists it; other modules contribute nothing. */
  lemma {:induction false} ExportedMembers(modules: seq<ModuleEntry>, c: ExportedConfig)
    ensures c in Exported(modules) <==>
      exists i :: 0 <= i < |modules| && modules[i].Some? && c in modules[i].value
  {
    if modules != [] {
      ExportedMembers(modules[1..], c);
      if exists i :: 0 <= i < |modules| && modules[i].Some? && c in modules[i].value {
        var i :| 0 <= i < |modules| && modules[i].Some? && c in modules[i].value;
        if i > 0 {
          assert modules[1..][i - 1] == modules[i];
        }
      }
      if exists i :: 0 <= i < |modules[1..]| && modules[1..][i].Some? && c in modules[1..][i].value {
        var i :| 0 <= i < |modules[1..]| && modules[1..][i].Some? && c in modules[1..][i].value;
        assert modules[i + 1] == modules[1..][i];
      }
    }
  }

  /** The configs whose name is one of `args`, in their original order. */
  function Matching(cs: seq<ExportedConfig>, args: seq<string>): seq<ExportedConfig>
  {
    if cs == [] then [] else (if cs[0].name in args then [cs[0]] else []) + Matching(cs[1..], args)
  }

  /** What the command exports: everything when no argument is given, else the matching configs. */
  function SelectByArgs(cs: seq<ExportedConfig>, args: seq<string>): seq<ExportedConfig>
  {
    if |args| == 0 then cs else Matching(cs, args)
  }

  /** Selection distributes over concatenation: it keeps the input order. */
  lemma {:induction false} MatchingAppend(a: seq<ExportedConfig>, b: seq<ExportedConfig>, args: seq<string>)
    ensures Matching(a + b, args) == Matching(a, args) + Matching(b, args)
  {
    if a == [] {
      assert a + b == b;
    } else {
      assert (a + b)[1..] == a[1..] + b;
      MatchingAppend(a[1..], b, args);
    }
  }

  /** A config is selected iff it is in the input and its name is an argument. */
  lemma {:induction false} MatchingMembers(cs: seq<ExportedConfig>, args: seq<string>, c: ExportedConfig)
    ensures c in Matching(cs, args) <==> c in cs && c.name in args
  {
    if cs != [] {
      MatchingMembers(cs[1..], args, c);
      assert cs == [cs[0]] + cs[1..];
    }
  }

  /** A repeated argument selects nothing twice: each config occurs as often as in the input, or not at all. */
  lemma {:induction false} MatchingCount(cs: seq<ExportedConfig>, args: seq<string>, c: ExportedConfig)
    ensures multiset(Matching(cs, args))[c] == if c.name in args then multiset(cs)[c] else 0
  {
    if cs != [] {
      MatchingCount(cs[1..], args, c);
      assert cs == [cs[0]] + cs[1..];
    }
  }

  /** Only the set of arguments matters, not their order or repetition. */
  lemma {:induction false} SelectByArgSet(cs: seq<ExportedConfig>, args1: seq<string>, args2: seq<string>)
    requires forall a :: a in args1 <==> a in args2
    ensures SelectByArgs(cs, args1) == SelectByArgs(cs, args2)
  {
    assert |args1| == 0 <==> |args2| == 0 by {
      if |args1| != 0 { assert args1[0] in args2; }
      if |args2| != 0 { assert args2[0] in args1; }
    }
    if |args1| != 0 {
      MatchingArgSet(cs, args1, args2);
    }
  }

  lemma {:induction false} MatchingArgSet(cs: seq<ExportedConfig>, args1: seq<string>, args2: seq<string>)
    requires forall a :: a in args1 <==> a in args2
    ensures Matching(cs, args1) == Matching(cs, args2)
  {
    if cs != [] {
      MatchingArgSet(cs[1..], args1, args2);
    }
  }

  /**
   * The argument filter in the command's RunE: with arguments, for each config
   * scan the arguments and copy the config on the first equal one.
   */
  method FilterByArgs(cs: seq<ExportedConfig>, args: seq<string>) returns (kept: seq<ExportedConfig>)
    ensures kept == SelectByArgs(cs, args)
  {
    kept := cs;
    if |args| >= 1 {
      var copy: seq<ExportedConfig> := [];
      for i := 0 to |cs|
        invariant copy == Matching(cs[..i], args)
      {
        MatchingAppend(cs[..i], [cs[i]], args);
        assert cs[..i + 1] == cs[..i] + [cs[i]];
        var j := 0;
        while j < |args|
          invariant 0 <= j <= |args|
          invariant copy == Matching(cs[..i], args)
          invariant forall k :: 0 <= k < j ==> args[k] != cs[i].name
        {
          if args[j] == cs[i].name {
            copy := copy + [cs[i]];
            break;
          }
          j := j + 1;
        }
      }
      assert cs[..|cs|] == cs;
      kept := copy;
    }
  }

  // ---------------------------------------------------------------------------
  // yamlHandler.write: which configs are appended

  function KeysOf(confMap: ConfMap): set<string>
  {
    match confMap
    case None => {}
    case Some(m) => m.Keys
  }

  /** The YAML handler writes a config only when none of its keys is already in the file. */
  predicate Emits(c: ExportedConfig, confMap: ConfMap)
  {
    c.data.Keys !! KeysOf(confMap)
  }

  /** The configs the YAML handler appends, in input order. */
  function YamlPlan(cs: seq<ExportedConfig>, confMap: ConfMap): seq<ExportedConfig>
  {
    if cs == [] then [] else (if Emits(cs[0], confMap) then [cs[0]] else []) + YamlPlan(cs[1..], confMap)
  }

  /** A config is appended iff it is in the input and none of its keys is a key of confMap. */
  lemma {:induction false} YamlPlanMembers(cs: seq<ExportedConfig>, confMap: ConfMap, c: ExportedConfig)
    ensures c in YamlPlan(cs, confMap) <==> c in cs && (forall k :: k in c.data ==> k !in KeysOf(confMap))
  {
    if cs != [] {
      YamlPlanMembers(cs[1..], confMap, c);
      assert cs == [cs[0]] + cs[1..];
    }
  }

  /**
   * The decision for later configs does not depend on earlier ones: confMap is
   * never updated, so two new configs sharing a key are both appended.
   */
  lemma {:induction false} YamlPlanAppend(a: seq<ExportedConfig>, b: seq<ExportedConfig>, confMap: ConfMap)
    ensures YamlPlan(a + b, confMap) == YamlPlan(a, confMap) + YamlPlan(b, confMap)
  {
    if a == [] {
      assert a + b == b;
    } else {
      assert (a + b)[1..] == a[1..] + b;
      YamlPlanAppend(a[1..], b, confMap);
    }
  }

  /** The text written for one config: the comment line when there is a comment, the data, a newline. */
  function Segments(c: ExportedConfig, marshalled: string): seq<string>
  {
    (if c.comment != "" then ["# " + c.comment + "\n"] else []) + [marshalled, "\n"]
  }

  /** Written out, one config is its comment line (when it has a comment), then the data and a newline. */
  lemma SegmentsText(c: ExportedConfig, marshalled: string)
    ensures Concat(Segments(c, marshalled)) ==
      (if c.comment != "" then "# " + c.comment + "\n" else "") + marshalled + "\n"
  {
    var tail := [marshalled, "\n"];
    assert Concat(tail) == marshalled + "\n" by {
      assert tail[1..] == ["\n"] && tail[1..][1..] == [];
      assert Concat(["\n"]) == "\n" + Concat([]);
    }
    if c.comment != "" {
      var line := "# " + c.comment + "\n";
      assert Segments(c, marshalled)[1..] == tail;
    } else {
      assert Segments(c, marshalled) == tail;
    }
  }

  function Concat(ss: seq<string>): string
  {
    if ss == [] then "" else ss[0] + Concat(ss[1..])
  }

  lemma {:induction false} ConcatAppend(a: seq<string>, b: seq<string>)
    ensures Concat(a + b) == Concat(a) + Concat(b)
  {
    if a == [] {
      assert a + b == b;
    } else {
      assert (a + b)[1..] == a[1..] + b;
      ConcatAppend(a[1..], b);
    }
  }

  /**
   * The text the YAML handler would append with unlimited room: the rendering
   * of each planned config, up to (not including) the first one that fails to
   * marshal.
   */
  function Intended(plan: seq<ExportedConfig>, marshal: map<string, Value> -> Result<string, string>): string
  {
    if plan == [] then ""
    else match marshal(plan[0].data)
      case Err(_) => ""
      case Ok(b) => Concat(Segments(plan[0], b)) + Intended(plan[1..], marshal)
  }

  predicate AllMarshal(plan: seq<ExportedConfig>, marshal: map<string, Value> -> Result<string, string>)
  {
    forall i :: 0 <= i < |plan| ==> marshal(plan[i].data).Ok?
  }

  // ---------------------------------------------------------------------------
  // jsonHandler.unmarshal and jsonHandler.write (the map merge)

  /** jsonHandler.unmarshal: empty input is no error and leaves the target as it was. */
  function JsonUnmarshal(bytes: string, target: ConfMap,
                         decode: (string, ConfMap) -> Result<ConfMap, string>): (r: Result<ConfMap, string>)
    ensures |bytes| == 0 ==> r == Ok(target)
    ensures |bytes| != 0 ==> r == decode(bytes, target)
  {
    if |bytes| == 0 then Ok(target) else decode(bytes, target)
  }

  /** One iteration of the JSON merge: a config whose name is already a key contributes nothing. */
  function MergeStep(m: map<string, Value>, c: ExportedConfig): map<string, Value>
  {
    if c.name in m then m else m + c.data
  }

  /** The JSON merge: fold the configs, in order, into the map. */
  function Merge(cs: seq<ExportedConfig>, m: map<string, Value>): map<string, Value>
  {
    if cs == [] then m else Merge(cs[1..], MergeStep(m, cs[0]))
  }

  /** What jsonHandler.write encodes: the merge into confMap, a nil confMap read as empty. */
  function JsonMerged(cs: seq<ExportedConfig>, confMap: ConfMap): map<string, Value>
  {
    Merge(cs, match confMap case None => map[] case Some(m) => m)
  }

  lemma {:induction false} MergeSnoc(cs: seq<ExportedConfig>, c: ExportedConfig, m: map<string, Value>)
    ensures Merge(cs + [c], m) == MergeStep(Merge(cs, m), c)
  {
    if cs == [] {
      assert [] + [c] == [c];
    } else {
      assert (cs + [c])[1..] == cs[1..] + [c];
      MergeSnoc(cs[1..], c, MergeStep(m, cs[0]));
    }
  }

  /** The merge never deletes a key. */
  lemma {:induction false} MergeKeepsKeys(cs: seq<ExportedConfig>, m: map<string, Value>)
    ensures m.Keys <= Merge(cs, m).Keys
  {
    if cs != [] {
      MergeKeepsKeys(cs[1..], MergeStep(m, cs[0]));
    }
  }

  /** Every key of the result was in the map already or comes from some config's data. */
  lemma {:induction false} MergeKeysFrom(cs: seq<ExportedConfig>, m: map<string, Value>, k: string)
    requires k in Merge(cs, m)
    ensures k in m || exists i :: 0 <= i < |cs| && k in cs[i].data
  {
    if cs != [] {
      var m' := MergeStep(m, cs[0]);
      MergeKeysFrom(cs[1..], m', k);
      if k !in m' {
        var i :| 0 <= i < |cs[1..]| && k in cs[1..][i].data;
        assert k in cs[i + 1].data;
      }
    }
  }

  /** A config whose name is already a key of the merge so far contributes nothing. */
  lemma MergeSkipsNamed(pre: seq<ExportedConfig>, c: ExportedConfig, m: map<string, Value>)
    requires c.name in Merge(pre, m)
    ensures Merge(pre + [c], m) == Merge(pre, m)
  {
    MergeSnoc(pre, c, m);
  }

  /**
   * Otherwise all its entries are copied in, overwriting equal keys, and every
   * other key keeps its value: later configs win.
   */
  lemma MergeCopiesData(pre: seq<ExportedConfig>, c: ExportedConfig, m: map<string, Value>)
    requires c.name !in Merge(pre, m)
    ensures Merge(pre + [c], m).Keys == Merge(pre, m).Keys + c.data.Keys
    ensures forall k :: k in c.data ==> Merge(pre + [c], m)[k] == c.data[k]
    ensures forall k :: k in Merge(pre, m) && k !in c.data ==> Merge(pre + [c], m)[k] == Merge(pre, m)[k]
  {
    MergeSnoc(pre, c, m);
  }
}
