/**
 * The output file of the `exportConfig` command and the two handlers' `write`
 * operations (pkg/config/module.go). The file is a character sequence with a
 * read/write offset, the append mode chosen at open, and a quota of characters
 * the device still accepts: a write longer than the quota fails and writes
 * nothing.
 */
module ConfigFile {
  import opened Wrappers
  import opened ConfigExport

  /** Writing `s` at position `pos` of `c`: what is there is overwritten, and the text grows past the end. */
  function Overlay(c: string, pos: nat, s: string): string
    requires pos <= |c|
  {
    c[..pos] + s + (if pos + |s| < |c| then c[pos + |s|..] else "")
  }

  /** The written text lands at `pos`, the text before it is kept, and so is what lies beyond its end. */
  lemma OverlayFacts(c: string, pos: nat, s: string)
    requires pos <= |c|
    ensures var r := Overlay(c, pos, s);
      && |r| == (if pos + |s| <= |c| then |c| else pos + |s|)
      && r[..pos] == c[..pos] && r[pos..pos + |s|] == s
      && (pos + |s| <= |c| ==> r[pos + |s|..] == c[pos + |s|..])
  {
  }

  /** Two writes at consecutive positions are one write of the concatenation. */
  lemma OverlayTwice(c: string, pos: nat, s1: string, s2: string)
    requires pos <= |c|
    ensures pos + |s1| <= |Overlay(c, pos, s1)|
    ensures Overlay(Overlay(c, pos, s1), pos + |s1|, s2) == Overlay(c, pos, s1 + s2)
  {
    var c1 := Overlay(c, pos, s1);
    OverlayFacts(c, pos, s1);
    var l := Overlay(c1, pos + |s1|, s2);
    OverlayFacts(c1, pos + |s1|, s2);
    var r := Overlay(c, pos, s1 + s2);
    OverlayFacts(c, pos, s1 + s2);
    assert |l| == |r|;
    forall i | 0 <= i < |l| ensures l[i] == r[i] {
      if i < pos {
        assert l[i] == l[..pos][i] == c1[..pos][i];
        assert r[i] == r[..pos][i];
      } else if i < pos + |s1| {
        assert l[i] == l[..pos + |s1|][i];
        assert c1[i] == c1[pos..pos + |s1|][i - pos];
        assert r[i] == r[pos..pos + |s1 + s2|][i - pos];
      } else if i < pos + |s1| + |s2| {
        assert l[i] == l[pos + |s1|..pos + |s1| + |s2|][i - pos - |s1|];
        assert r[i] == r[pos..pos + |s1 + s2|][i - pos];
      } else {
        assert l[i] == l[pos + |s1| + |s2|..][i - pos - |s1| - |s2|];
        assert c1[i] == c1[pos + |s1|..][i - pos - |s1|];
        assert r[i] == r[pos + |s1 + s2|..][i - pos - |s1 + s2|];
      }
    }
  }

  /** A write at the end appends. */
  lemma OverlayAtEnd(c: string, s: string)
    ensures Overlay(c, |c|, s) == c + s
  {
  }

  /** Why a write did not complete. */
  datatype Failure = CodecFailure(message: string) | NoSpace

  /** What a sequence of writes leaves behind: the text written and the first failure. */
  datatype Outcome = Outcome(text: string, failure: Option<Failure>)

  class File {
    var present: bool
    var content: string
    var offset: nat
    var append: bool
    var room: nat
    const openable: bool
    const readable: bool

    ghost predicate Valid()
      reads this
    {
      offset <= |content|
    }

    /** Where the next write lands: the end in append mode, the offset otherwise. */
    function Pos(): nat
      reads this
    {
      if append then |content| else offset
    }

    constructor (present: bool, content: string, room: nat, openable: bool, readable: bool)
      ensures Valid()
      ensures this.present == present && this.content == content && this.room == room
      ensures this.openable == openable && this.readable == readable
      ensures offset == 0 && !append
    {
      this.present, this.content, this.room := present, content, room;
      this.openable, this.readable := openable, readable;
      offset, append := 0, false;
    }

    /** os.OpenFile: a missing file is created only with the Create flag; the offset starts at 0. */
    method Open(flags: set<OpenFlag>) returns (ok: bool)
      requires Valid()
      modifies this
      ensures Valid()
      ensures ok == (openable && (old(present) || Create in flags))
      ensures ok ==> present && content == (if old(present) then old(content) else "")
      ensures ok ==> offset == 0 && append == (Append in flags) && room == old(room)
      ensures !ok ==> unchanged(this)
    {
      ok := openable && (present || Create in flags);
      if ok {
        if !present {
          present, content := true, "";
        }
        offset, append := 0, Append in flags;
      }
    }

    /** ioutil.ReadAll: everything from the offset on; the offset moves to the end. */
    method ReadAll() returns (r: Option<string>)
      requires Valid()
      modifies this
      ensures Valid()
      ensures readable ==> r == Some(old(content)[old(offset)..]) && offset == |content|
      ensures !readable ==> r == None && offset == old(offset)
      ensures content == old(content) && append == old(append) && room == old(room) && present == old(present)
    {
      if readable {
        r := Some(content[offset..]);
        offset := |content|;
      } else {
        r := None;
      }
    }

    /** file.Seek(0, 0). */
    method SeekStart()
      requires Valid()
      modifies this
      ensures Valid()
      ensures offset == 0
      ensures content == old(content) && append == old(append) && room == old(room) && present == old(present)
    {
      offset := 0;
    }

    /** file.Truncate(0), called with the offset at the start. */
    method TruncateAll()
      requires Valid() && offset == 0
      modifies this
      ensures Valid()
      ensures content == "" && offset == 0
      ensures append == old(append) && room == old(room) && present == old(present)
    {
      content := "";
    }

    /** file.Write: all of `s` at Pos() when it fits in the room left, nothing otherwise. */
    method Write(s: string) returns (ok: bool)
      requires Valid()
      modifies this
      ensures Valid()
      ensures ok == (|s| <= old(room))
      ensures ok ==> content == Overlay(old(content), old(Pos()), s)
      ensures ok ==> Pos() == old(Pos()) + |s| && room == old(room) - |s|
      ensures !ok ==> content == old(content) && offset == old(offset) && room == old(room)
      ensures append == old(append) && present == old(present)
    {
      ok := |s| <= room;
      if ok {
        var pos := Pos();
        content := Overlay(content, pos, s);
        offset := pos + |s|;
        room := room - |s|;
      }
    }
  }

  // ---------------------------------------------------------------------------
  // yamlHandler.write

  /** Writes `segs` in order to a device with `room` left; the first that does not fit fails and stops. */
  function WriteAll(segs: seq<string>, room: nat): (r: Outcome)
    ensures |r.text| <= room
    ensures r.failure.Some? ==> r.failure == Some(NoSpace)
  {
    if segs == [] then Outcome("", None)
    else if |segs[0]| > room then Outcome("", Some(NoSpace))
    else
      var rest := WriteAll(segs[1..], room - |segs[0]|);
      Outcome(segs[0] + rest.text, rest.failure)
  }

  /**
   * The writes all succeed iff their total length fits in the room; then all
   * of it is written, and otherwise a prefix of it.
   */
  lemma {:induction false} WriteAllFits(segs: seq<string>, room: nat)
    ensures WriteAll(segs, room).failure.None? <==> |Concat(segs)| <= room
    ensures WriteAll(segs, room).failure.None? ==> WriteAll(segs, room).text == Concat(segs)
    ensures WriteAll(segs, room).text <= Concat(segs)
  {
    if segs != [] && |segs[0]| <= room {
      WriteAllFits(segs[1..], room - |segs[0]|);
    }
  }

  lemma WriteAllCons(s: string, rest: seq<string>, room: nat)
    ensures WriteAll([s] + rest, room) ==
      if |s| > room then Outcome("", Some(NoSpace))
      else Outcome(s + WriteAll(rest, room - |s|).text, WriteAll(rest, room - |s|).failure)
  {
    assert ([s] + rest)[0] == s && ([s] + rest)[1..] == rest;
  }

  /** One planned config: marshal its data, then write its segments. */
  function EmitOne(c: ExportedConfig, marshal: map<string, Value> -> Result<string, string>, room: nat): (r: Outcome)
    ensures |r.text| <= room
  {
    match marshal(c.data)
    case Err(e) => Outcome("", Some(CodecFailure(e)))
    case Ok(b) => WriteAll(Segments(c, b), room)
  }

  /** The planned configs one after another, stopping at the first failure. */
  function YamlOutcome(plan: seq<ExportedConfig>, marshal: map<string, Value> -> Result<string, string>,
                       room: nat): (r: Outcome)
    ensures |r.text| <= room
  {
    if plan == [] then Outcome("", None)
    else
      var first := EmitOne(plan[0], marshal, room);
      if first.failure.Some? then first
      else
        var rest := YamlOutcome(plan[1..], marshal, room - |first.text|);
        Outcome(first.text + rest.text, rest.failure)
  }

  /** Running `q` after an outcome: only when that outcome did not fail, with the room that is left. */
  function Continue(o: Outcome, q: seq<ExportedConfig>, marshal: map<string, Value> -> Result<string, string>,
                    room: nat): Outcome
    requires |o.text| <= room
  {
    if o.failure.Some? then o
    else var r := YamlOutcome(q, marshal, room - |o.text|); Outcome(o.text + r.text, r.failure)
  }

  /** Processing a concatenation: the second part runs only when the first did not fail. */
  lemma {:induction false} YamlOutcomeAppend(p: seq<ExportedConfig>, q: seq<ExportedConfig>,
                                             marshal: map<string, Value> -> Result<string, string>, room: nat)
    ensures YamlOutcome(p + q, marshal, room) == Continue(YamlOutcome(p, marshal, room), q, marshal, room)
  {
    if p == [] {
      assert p + q == q;
      var r := YamlOutcome(q, marshal, room);
      assert "" + r.text == r.text;
    } else {
      var first := EmitOne(p[0], marshal, room);
      assert (p + q)[0] == p[0];
      assert (p + q)[1..] == p[1..] + q;
      if first.failure.None? {
        var room1 := room - |first.text|;
        var r1 := YamlOutcome(p[1..], marshal, room1);
        var r := YamlOutcome(p[1..] + q, marshal, room1);
        calc {
          YamlOutcome(p + q, marshal, room);
          Outcome(first.text + r.text, r.failure);
          { YamlOutcomeAppend(p[1..], q, marshal, room1); }
          Outcome(first.text + Continue(r1, q, marshal, room1).text, Continue(r1, q, marshal, room1).failure);
          { ContinueShift(first.text, r1, q, marshal, room); }
          Continue(Outcome(first.text + r1.text, r1.failure), q, marshal, room);
          Continue(YamlOutcome(p, marshal, room), q, marshal, room);
        }
      }
    }
  }

  lemma ContinueShift(t: string, r1: Outcome, q: seq<ExportedConfig>,
                      marshal: map<string, Value> -> Result<string, string>, room: nat)
    requires |t| + |r1.text| <= room
    ensures var c := Continue(r1, q, marshal, room - |t|);
      Outcome(t + c.text, c.failure) == Continue(Outcome(t + r1.text, r1.failure), q, marshal, room)
  {
    if r1.failure.None? {
      var r2 := YamlOutcome(q, marshal, room - |t| - |r1.text|);
      assert t + (r1.text + r2.text) == (t + r1.text) + r2.text;
    }
  }

  /** A single config's outcome is that of emitting it. */
  lemma YamlOutcomeSingle(c: ExportedConfig, marshal: map<string, Value> -> Result<string, string>, room: nat)
    ensures YamlOutcome([c], marshal, room) == EmitOne(c, marshal, room)
  {
    var first := EmitOne(c, marshal, room);
    assert [c][1..] == [];
    assert first.text + "" == first.text;
  }

  /** One step of yamlHandler.write's loop, for a config that is written. */
  lemma YamlStepEmit(configs: seq<ExportedConfig>, i: nat, confMap: ConfMap,
                     marshal: map<string, Value> -> Result<string, string>, room: nat, done: string)
    requires i < |configs| && Emits(configs[i], confMap)
    requires YamlOutcome(YamlPlan(configs[..i], confMap), marshal, room) == Outcome(done, None)
    ensures |done| <= room
    ensures var e := EmitOne(configs[i], marshal, room - |done|);
      YamlOutcome(YamlPlan(configs[..i + 1], confMap), marshal, room) == Outcome(done + e.text, e.failure)
  {
    var c := configs[i];
    var p := YamlPlan(configs[..i], confMap);
    assert configs[..i + 1] == configs[..i] + [c];
    YamlPlanAppend(configs[..i], [c], confMap);
    assert YamlPlan([c], confMap) == [c];
    YamlOutcomeAppend(p, [c], marshal, room);
    YamlOutcomeSingle(c, marshal, room - |done|);
  }

  /** One step of yamlHandler.write's loop, for a config that is skipped. */
  lemma YamlStepSkip(configs: seq<ExportedConfig>, i: nat, confMap: ConfMap)
    requires i < |configs| && !Emits(configs[i], confMap)
    ensures YamlPlan(configs[..i + 1], confMap) == YamlPlan(configs[..i], confMap)
  {
    var c := configs[i];
    assert configs[..i + 1] == configs[..i] + [c];
    YamlPlanAppend(configs[..i], [c], confMap);
    assert YamlPlan([c], confMap) == [];
    assert YamlPlan(configs[..i], confMap) + [] == YamlPlan(configs[..i], confMap);
  }

  /** Once the first i configs fail, the later ones change nothing. */
  lemma YamlStops(configs: seq<ExportedConfig>, i: nat, confMap: ConfMap,
                  marshal: map<string, Value> -> Result<string, string>, room: nat)
    requires i <= |configs|
    requires YamlOutcome(YamlPlan(configs[..i], confMap), marshal, room).failure.Some?
    ensures YamlOutcome(YamlPlan(configs, confMap), marshal, room)
         == YamlOutcome(YamlPlan(configs[..i], confMap), marshal, room)
  {
    assert configs == configs[..i] + configs[i..];
    YamlPlanAppend(configs[..i], configs[i..], confMap);
    YamlOutcomeAppend(YamlPlan(configs[..i], confMap), YamlPlan(configs[i..], confMap), marshal, room);
  }

  lemma PrefixExtend(a: string, b: string, x: string)
    requires a <= b
    ensures a <= b + x
  {
    assert (b + x)[..|a|] == b[..|a|];
  }

  lemma PrefixAfter(a: string, b: string, x: string)
    requires b <= x
    ensures a + b <= a + x
  {
    assert (a + x)[..|a + b|] == a + x[..|b|];
  }

  /**
   * What the YAML handler appends is always a prefix of the intended text:
   * nothing is written after the first failure.
   */
  lemma {:induction false} YamlOutcomePrefix(plan: seq<ExportedConfig>,
                                             marshal: map<string, Value> -> Result<string, string>, room: nat)
    ensures YamlOutcome(plan, marshal, room).text <= Intended(plan, marshal)
  {
    if plan != [] {
      match marshal(plan[0].data)
      case Err(_) =>
      case Ok(b) =>
        var segs := Segments(plan[0], b);
        WriteAllFits(segs, room);
        var first := WriteAll(segs, room);
        assert EmitOne(plan[0], marshal, room) == first;
        assert Intended(plan, marshal) == Concat(segs) + Intended(plan[1..], marshal);
        if first.failure.None? {
          var rest := YamlOutcome(plan[1..], marshal, room - |first.text|);
          assert YamlOutcome(plan, marshal, room).text == first.text + rest.text;
          YamlOutcomePrefix(plan[1..], marshal, room - |first.text|);
          PrefixAfter(first.text, rest.text, Intended(plan[1..], marshal));
        } else {
          PrefixExtend(first.text, Concat(segs), Intended(plan[1..], marshal));
        }
    }
  }

  /**
   * The YAML handler succeeds iff every planned config marshals and the whole
   * intended text fits; then exactly the intended text is written.
   */
  lemma {:induction false} YamlOutcomeSuccess(plan: seq<ExportedConfig>,
                                              marshal: map<string, Value> -> Result<string, string>, room: nat)
    ensures var o := YamlOutcome(plan, marshal, room);
      o.failure.None? <==> AllMarshal(plan, marshal) && |Intended(plan, marshal)| <= room
    ensures var o := YamlOutcome(plan, marshal, room);
      o.failure.None? ==> o.text == Intended(plan, marshal)
  {
    if plan != [] {
      var first := EmitOne(plan[0], marshal, room);
      match marshal(plan[0].data)
      case Err(e) =>
        assert !AllMarshal(plan, marshal) by { assert !marshal(plan[0].data).Ok?; }
      case Ok(b) =>
        var rest := YamlOutcome(plan[1..], marshal, room - |first.text|);
        YamlOutcomeSuccess(plan[1..], marshal, room - |first.text|);
        assert AllMarshal(plan, marshal) <==> AllMarshal(plan[1..], marshal) by {
          if AllMarshal(plan[1..], marshal) {
            forall i | 0 <= i < |plan| ensures marshal(plan[i].data).Ok? {
              if i > 0 { assert plan[i] == plan[1..][i - 1]; }
            }
          }
          if AllMarshal(plan, marshal) {
            forall i | 0 <= i < |plan[1..]| ensures marshal(plan[1..][i].data).Ok? {
              assert plan[1..][i] == plan[i + 1];
            }
          }
        }
        WriteAllFits(Segments(plan[0], b), room);
    }
  }

  /** The data and the newline that end every config's text. */
  lemma WriteDataLine(b: string, room: nat)
    ensures WriteAll([b, "\n"], room) ==
      if |b| > room then Outcome("", Some(NoSpace))
      else if |b| + 1 > room then Outcome(b, Some(NoSpace))
      else Outcome(b + "\n", None)
  {
    WriteAllCons(b, ["\n"], room);
    assert [b, "\n"] == [b] + ["\n"];
    if |b| <= room {
      WriteAllCons("\n", [], room - |b|);
      assert ["\n"] == ["\n"] + [];
      assert b + "" == b;
      assert b + ("\n" + "") == b + "\n";
    }
  }

  /** A config's writes: its comment line first, when there is one. */
  lemma WriteSegments(c: ExportedConfig, b: string, room: nat)
    ensures var line := "# " + c.comment + "\n";
      WriteAll(Segments(c, b), room) ==
        if c.comment == "" then WriteAll([b, "\n"], room)
        else if |line| > room then Outcome("", Some(NoSpace))
        else Outcome(line + WriteAll([b, "\n"], room - |line|).text, WriteAll([b, "\n"], room - |line|).failure)
  {
    var line := "# " + c.comment + "\n";
    if c.comment != "" {
      assert Segments(c, b) == [line] + [b, "\n"];
      WriteAllCons(line, [b, "\n"], room);
    } else {
      assert Segments(c, b) == [b, "\n"];
    }
  }

  /** The end of a config's text: the marshalled data, then a newline. */
  method WriteData(file: File, b: string) returns (ok: bool)
    requires file.Valid()
    modifies file
    ensures file.Valid()
    ensures var w := WriteAll([b, "\n"], old(file.room));
      && ok == w.failure.None?
      && old(file.Pos()) <= |old(file.content)|
      && file.content == Overlay(old(file.content), old(file.Pos()), w.text)
      && file.Pos() == old(file.Pos()) + |w.text|
      && file.room == old(file.room) - |w.text|
    ensures file.append == old(file.append) && file.present == old(file.present)
  {
    ghost var c0, p0, room0 := file.content, file.Pos(), file.room;
    WriteDataLine(b, room0);
    ok := file.Write(b);
    if ok {
      ok := file.Write("\n");
      if ok {
        OverlayTwice(c0, p0, b, "\n");
      }
    }
  }

  /** Body of yamlHandler.write for one config that is to be written: the comment line, the data, a newline. */
  method EmitConfig(file: File, c: ExportedConfig, b: string) returns (ok: bool)
    requires file.Valid()
    modifies file
    ensures file.Valid()
    ensures var w := WriteAll(Segments(c, b), old(file.room));
      && ok == w.failure.None?
      && old(file.Pos()) <= |old(file.content)|
      && file.content == Overlay(old(file.content), old(file.Pos()), w.text)
      && file.Pos() == old(file.Pos()) + |w.text|
      && file.room == old(file.room) - |w.text|
    ensures file.append == old(file.append) && file.present == old(file.present)
  {
    ghost var c0, p0, room0 := file.content, file.Pos(), file.room;
    WriteSegments(c, b, room0);
    if c.comment != "" {
      var line := "# " + c.comment + "\n";
      ok := file.Write(line);
      if ok {
        ok := WriteData(file, b);
        OverlayTwice(c0, p0, line, WriteAll([b, "\n"], room0 - |line|).text);
      }
    } else {
      ok := WriteData(file, b);
    }
  }

  /** The inner loop of yamlHandler.write: is any key of the config already a key of confMap? */
  method HasExistingKey(c: ExportedConfig, confMap: ConfMap) returns (clash: bool)
    ensures clash <==> !Emits(c, confMap)
  {
    clash := false;
    var pending := c.data.Keys;
    while pending != {}
      invariant pending <= c.data.Keys
      invariant (c.data.Keys - pending) !! KeysOf(confMap)
      decreases pending
    {
      var k :| k in pending;
      if k in KeysOf(confMap) {
        clash := true;
        break;
      }
      pending := pending - {k};
    }
  }

  /**
   * One iteration of yamlHandler.write: skip the config if a key clashes, else
   * marshal and write it. The ghost parameters say where the loop stands: `done`
   * has been written at `p0` over `c0`, out of a room of `room0`.
   */
  method WriteOne(file: File, c: ExportedConfig, confMap: ConfMap,
                  marshal: map<string, Value> -> Result<string, string>,
                  ghost c0: string, ghost p0: nat, ghost room0: nat, ghost done: string) returns (err: Option<Failure>)
    requires file.Valid() && p0 <= |c0| && file.content == Overlay(c0, p0, done)
    requires file.room == room0 - |done| && |done| <= room0 && file.Pos() == p0 + |done|
    modifies file
    ensures file.Valid() && file.append == old(file.append) && file.present == old(file.present)
    ensures var e := if Emits(c, confMap) then EmitOne(c, marshal, room0 - |done|) else Outcome("", None);
      && err == e.failure
      && file.content == Overlay(c0, p0, done + e.text)
      && file.room == room0 - |done| - |e.text|
      && (err.None? ==> file.Pos() == p0 + |done| + |e.text|)
  {
    err := None;
    var clash := HasExistingKey(c, confMap);
    if !clash {
      var marshalled := marshal(c.data);
      if marshalled.Err? {
        err := Some(CodecFailure(marshalled.error));
      } else {
        var ok := EmitConfig(file, c, marshalled.value);
        OverlayTwice(c0, p0, done, EmitOne(c, marshal, room0 - |done|).text);
        if !ok {
          err := Some(NoSpace);
        }
      }
    }
    if clash || (err.Some? && err.value.CodecFailure?) {
      assert done + "" == done;
    }
  }

  /**
   * yamlHandler.write: append, in order, each config none of whose keys is in
   * confMap; return the first marshal or write failure and write nothing after it.
   */
  method YamlWrite(file: File, configs: seq<ExportedConfig>, confMap: ConfMap,
                   marshal: map<string, Value> -> Result<string, string>) returns (err: Option<Failure>)
    requires file.Valid()
    modifies file
    ensures file.Valid()
    ensures var o := YamlOutcome(YamlPlan(configs, confMap), marshal, old(file.room));
      && err == o.failure
      && old(file.Pos()) <= |old(file.content)|
      && file.content == Overlay(old(file.content), old(file.Pos()), o.text)
      && file.room == old(file.room) - |o.text|
    ensures file.append == old(file.append) && file.present == old(file.present)
  {
    ghost var c0, p0, room0 := file.content, file.Pos(), file.room;
    ghost var done := "";
    OverlayFacts(c0, p0, "");
    assert c0[..p0] + "" + c0[p0..] == c0;
    assert configs[..0] == [];
    err := None;
    var i := 0;
    while i < |configs| && err.None?
      invariant 0 <= i <= |configs|
      invariant file.Valid() && file.append == old(file.append) && file.present == old(file.present)
      invariant YamlOutcome(YamlPlan(configs[..i], confMap), marshal, room0) == Outcome(done, err)
      invariant p0 <= |c0| && file.content == Overlay(c0, p0, done)
      invariant file.room == room0 - |done|
      invariant err.None? ==> file.Pos() == p0 + |done|
    {
      ghost var e := if Emits(configs[i], confMap) then EmitOne(configs[i], marshal, room0 - |done|)
                     else Outcome("", None);
      if Emits(configs[i], confMap) {
        YamlStepEmit(configs, i, confMap, marshal, room0, done);
      } else {
        YamlStepSkip(configs, i, confMap);
      }
      err := WriteOne(file, configs[i], confMap, marshal, c0, p0, room0, done);
      done := done + e.text;
      i := i + 1;
    }
    if err.Some? {
      YamlStops(configs, i, confMap, marshal, room0);
    } else {
      assert configs[..|configs|] == configs;
    }
  }

  // ---------------------------------------------------------------------------
  // jsonHandler.write

  /** The merge loop of jsonHandler.write: a nil map becomes empty, then each config is folded in. */
  method MergeInto(configs: seq<ExportedConfig>, confMap: ConfMap) returns (m: map<string, Value>)
    ensures m == JsonMerged(configs, confMap)
  {
    m := if confMap.None? then map[] else confMap.value;
    for i := 0 to |configs|
      invariant Merge(configs[i..], m) == JsonMerged(configs, confMap)
    {
      var c := configs[i];
      assert configs[i..][1..] == configs[i + 1..];
      if c.name !in m {
        m := CopyInto(m, c.data);
      }
    }
    assert configs[|configs|..] == [];
  }

  /** The inner loop of the merge: every key of `data` is set to its value in `data`. */
  method CopyInto(m0: map<string, Value>, data: map<string, Value>) returns (m: map<string, Value>)
    ensures m == m0 + data
  {
    m := m0;
    var pending := data.Keys;
    while pending != {}
      invariant pending <= data.Keys
      invariant m == m0 + map k | k in data.Keys - pending :: data[k]
      decreases pending
    {
      var k :| k in pending;
      m := m[k := data[k]];
      pending := pending - {k};
    }
    assert data.Keys - {} == data.Keys;
    assert (map k | k in data.Keys :: data[k]) == data;
  }

  /**
   * jsonHandler.write as written: merge, seek to the start and encode over the
   * old content without truncating it.
   */
  method JsonWriteAsWritten(file: File, configs: seq<ExportedConfig>, confMap: ConfMap,
                            encode: map<string, Value> -> Result<string, string>) returns (err: Option<Failure>)
    requires file.Valid()
    modifies file
    ensures file.Valid()
    ensures var e := encode(JsonMerged(configs, confMap));
      && (e.Err? ==> err == Some(CodecFailure(e.error)) && file.content == old(file.content))
      && (e.Ok? ==> err == (if |e.value| + 1 <= old(file.room) then None else Some(NoSpace)))
      && (e.Ok? && err.None? ==>
            file.content == Overlay(old(file.content), if file.append then |old(file.content)| else 0, e.value + "\n"))
    ensures file.append == old(file.append) && file.present == old(file.present)
  {
    var m := MergeInto(configs, confMap);
    file.SeekStart();
    var encoded := encode(m);
    if encoded.Err? {
      return Some(CodecFailure(encoded.error));
    }
    var ok := file.Write(encoded.value + "\n");
    err := if ok then None else Some(NoSpace);
  }

  /** The rewrite above keeps the old file's tail whenever the new encoding is shorter. */
  lemma JsonRewriteKeepsStaleTail(old_content: string, encoded: string)
    requires |encoded| + 1 < |old_content|
    ensures Overlay(old_content, 0, encoded + "\n") == encoded + "\n" + old_content[|encoded| + 1..]
    ensures Overlay(old_content, 0, encoded + "\n") != encoded + "\n"
  {
  }

  /**
   * A concrete case: the file holds {"x": "long"}, a config named "y" sets x
   * to "b"; the new, shorter encoding leaves a stray closing brace behind.
   */
  lemma JsonRewriteCounterexample()
    ensures JsonMerged([ExportedConfig("y", map["x" := Str("b")], "")], Some(map["x" := Str("long")]))
            == map["x" := Str("b")]
    ensures Overlay("{\n  \"x\": \"long\"\n}\n", 0, "{\n  \"x\": \"b\"\n}" + "\n")
            == "{\n  \"x\": \"b\"\n}\n\n}\n"
  {
    var m := map["x" := Str("long")];
    var c := ExportedConfig("y", map["x" := Str("b")], "");
    assert MergeStep(m, c) == map["x" := Str("b")];
    JsonRewriteKeepsStaleTail("{\n  \"x\": \"long\"\n}\n", "{\n  \"x\": \"b\"\n}");
    assert "{\n  \"x\": \"long\"\n}\n"[15..] == "\n}\n";
  }

  /**
   * jsonHandler.write as intended: merge and encode; on success replace the
   * file's whole content with the encoding and a newline. A failed encoding
   * leaves the file alone.
   */
  method JsonWrite(file: File, configs: seq<ExportedConfig>, confMap: ConfMap,
                   encode: map<string, Value> -> Result<string, string>) returns (err: Option<Failure>)
    requires file.Valid()
    modifies file
    ensures file.Valid()
    ensures var e := encode(JsonMerged(configs, confMap));
      && (e.Err? ==> err == Some(CodecFailure(e.error)) && file.content == old(file.content))
      && (e.Ok? ==> err == (if |e.value| + 1 <= old(file.room) then None else Some(NoSpace)))
      && (e.Ok? && err.None? ==> file.content == e.value + "\n")
      && (e.Ok? && err.Some? ==> file.content == "")
    ensures file.append == old(file.append) && file.present == old(file.present)
  {
    var m := MergeInto(configs, confMap);
    var encoded := encode(m);
    if encoded.Err? {
      return Some(CodecFailure(encoded.error));
    }
    file.SeekStart();
    file.TruncateAll();
    var ok := file.Write(encoded.value + "\n");
    err := if ok then None else Some(NoSpace);
  }
}
