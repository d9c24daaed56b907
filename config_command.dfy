/**
 * The `exportConfig` command's RunE (pkg/config/module.go): pick the handler
 * for the style, collect the exported configs and select them by argument,
 * open and read the output file, unmarshal it, and write the configs.
 */
module ConfigCommand {
  import opened Wrappers
  import opened ConfigExport
  import opened ConfigFile

  /** The codec functions the handlers call, which this model takes as given. */
  datatype Codecs = Codecs(
    yamlDecode: (string, ConfMap) -> Result<ConfMap, string>,
    jsonDecode: (string, ConfMap) -> Result<ConfMap, string>,
    yamlMarshal: map<string, Value> -> Result<string, string>,
    jsonEncode: map<string, Value> -> Result<string, string>)

  /** Why the command failed, naming the step that failed. */
  datatype ExportError =
    | StyleFailed(cause: StyleError)
    | OpenFailed
    | ReadFailed
    | UnmarshalFailed(message: string)
    | WriteFailed(failure: Failure)

  /** handler.unmarshal into a nil map: YAML decodes whatever was read; JSON accepts an empty file as it is. */
  function Unmarshal(h: Handler, bytes: string, codecs: Codecs): Result<ConfMap, string>
  {
    match h
    case YamlHandler => codecs.yamlDecode(bytes, None)
    case JsonHandler => JsonUnmarshal(bytes, None, codecs.jsonDecode)
  }

  /** handler.write after a successful unmarshal: the YAML handler appends, the JSON handler rewrites. */
  method WriteConfigs(file: File, h: Handler, configs: seq<ExportedConfig>, confMap: ConfMap, codecs: Codecs)
    returns (err: Option<ExportError>)
    requires file.Valid() && file.append == (h == YamlHandler)
    modifies file
    ensures file.Valid() && file.present == old(file.present)
    ensures h == YamlHandler ==>
      var o := YamlOutcome(YamlPlan(configs, confMap), codecs.yamlMarshal, old(file.room));
      && err == (if o.failure.Some? then Some(WriteFailed(o.failure.value)) else None)
      && file.content == old(file.content) + o.text
    ensures h == JsonHandler ==>
      var e := codecs.jsonEncode(JsonMerged(configs, confMap));
      && (e.Err? ==> err == Some(WriteFailed(CodecFailure(e.error))) && file.content == old(file.content))
      && (e.Ok? && |e.value| + 1 <= old(file.room) ==> err == None && file.content == e.value + "\n")
      && (e.Ok? && |e.value| + 1 > old(file.room) ==> err == Some(WriteFailed(NoSpace)) && file.content == "")
  {
    var w: Option<Failure>;
    if h == YamlHandler {
      ghost var c0 := file.content;
      w := YamlWrite(file, configs, confMap, codecs.yamlMarshal);
      OverlayAtEnd(c0, YamlOutcome(YamlPlan(configs, confMap), codecs.yamlMarshal, old(file.room)).text);
    } else {
      w := JsonWrite(file, configs, confMap, codecs.jsonEncode);
    }
    err := if w.Some? then Some(WriteFailed(w.value)) else None;
  }

  /**
   * RunE of `exportConfig`. `modules` are the container's modules, `args` the
   * command's arguments; the output file is `file`.
   */
  method RunExport(file: File, style: string, modules: seq<ModuleEntry>, args: seq<string>, codecs: Codecs)
    returns (err: Option<ExportError>)
    requires file.Valid()
    modifies file
    ensures file.Valid()
    ensures GetHandler(style).Err? ==> err == Some(StyleFailed(UnsupportedStyle(style))) && unchanged(file)
    ensures GetHandler(style).Ok? && !file.openable ==> err == Some(OpenFailed) && unchanged(file)
    ensures GetHandler(style).Ok? && file.openable ==> file.present
    ensures GetHandler(style).Ok? && file.openable && !file.readable ==>
      err == Some(ReadFailed) && file.content == (if old(file.present) then old(file.content) else "")
    ensures GetHandler(style).Ok? && file.openable && file.readable ==>
      var h := GetHandler(style).value;
      var start := if old(file.present) then old(file.content) else "";
      var selected := SelectByArgs(Exported(modules), args);
      var u := Unmarshal(h, start, codecs);
      && (u.Err? ==> err == Some(UnmarshalFailed(u.error)) && file.content == start)
      && (u.Ok? && h == YamlHandler ==>
            var o := YamlOutcome(YamlPlan(selected, u.value), codecs.yamlMarshal, old(file.room));
            && err == (if o.failure.Some? then Some(WriteFailed(o.failure.value)) else None)
            && file.content == start + o.text)
      && (u.Ok? && h == JsonHandler ==>
            var e := codecs.jsonEncode(JsonMerged(selected, u.value));
            && (e.Err? ==> err == Some(WriteFailed(CodecFailure(e.error))) && file.content == start)
            && (e.Ok? && |e.value| + 1 <= old(file.room) ==> err == None && file.content == e.value + "\n")
            && (e.Ok? && |e.value| + 1 > old(file.room) ==> err == Some(WriteFailed(NoSpace)) && file.content == ""))
  {
    var handler := GetHandler(style);
    if handler.Err? {
      err := Some(StyleFailed(handler.error));
    } else {
      var h := handler.value;
      var configs := Exported(modules);
      configs := FilterByArgs(configs, args);
      var isOpen := file.Open(Flags(h));
      if !isOpen {
        err := Some(OpenFailed);
      } else {
        var bytes := file.ReadAll();
        if bytes.None? {
          err := Some(ReadFailed);
        } else {
          assert bytes.value == file.content;
          var confMap := Unmarshal(h, bytes.value, codecs);
          if confMap.Err? {
            err := Some(UnmarshalFailed(confMap.error));
          } else {
            err := WriteConfigs(file, h, configs, confMap.value, codecs);
          }
        }
      }
    }
  }
}
