/** Routine specs: create, update and delete over an append-only log of rendered specs. */
module Routines {
  import opened Sequences
  import opened Frontmatter
  import opened FrontmatterRoundTrip
  import Text

  /** A spec delta: lake timestamp, tags and rendered content. */
  datatype Row = Row(ts: int, tags: seq<string>, content: string)

  /** A spec as it reads back. */
  datatype Spec = Spec(meta: Meta, body: string, workspace: Value)

  datatype Sections = Sections(purpose: string, needs: string, steps: string, ending: string)

  /** A create or update request: spec fields, the freeform prompt, and the four prompt sections. */
  datatype Request = Request(fields: Meta, prompt: Option<string>, sections: Option<Sections>)

  datatype CronVerdict = Valid | Invalid | Raises

  datatype Outcome = Done(rid: string) | MissingField | AlreadyExists | NotFound | BadSchedule | Fault

  // ---- Python values ----

  predicate Truthy(v: Value) {
    match v
    case Bool(b) => b
    case Int(n) => n != 0
    case Str(s) => s != ""
    case Null => false
  }

  /** `str(v)`. */
  function PyStr(v: Value): string {
    match v
    case Bool(b) => if b then "True" else "False"
    case Int(n) => Text.IntToString(n)
    case Str(s) => s
    case Null => "None"
  }

  /** `int(v)`, or None where Python raises. */
  function IntOf(v: Value): Option<Value> {
    match v
    case Bool(b) => Some(Int(if b then 1 else 0))
    case Int(n) => Some(v)
    case Null => None
    case Str(s) =>
      var t := Text.Strip(s);
      if Text.IsDigits(t) then Some(Int(Text.ParseNat(t)))
      else if t != "" && t[0] == '-' && Text.IsDigits(t[1..]) then Some(Int(0 - Text.ParseNat(t[1..])))
      else if t != "" && t[0] == '+' && Text.IsDigits(t[1..]) then Some(Int(Text.ParseNat(t[1..])))
      else None
  }

  /** `meta.get(key, default)`. */
  function Field(meta: Meta, key: string, default: Value): Value {
    if key in meta then meta[key] else default
  }

  // ---- The spec log ----

  function RoutineId(row: Row): string { Text.TagValue(row.tags, "routine-id:") }

  /** The workspace tag, or else the workspace in the frontmatter. */
  function ReadSpec(row: Row): Spec {
    var (meta, body) := ParseFrontmatter(row.content);
    var tag := Text.TagValue(row.tags, "workspace:");
    Spec(meta, body, if tag != "" then Str(tag) else Field(meta, "workspace", Str("")))
  }

  function SpecTags(rid: string, workspace: Value): seq<string> {
    ["spec", "routine", "routine-id:" + rid] + if Truthy(workspace) then ["workspace:" + PyStr(workspace)] else []
  }

  function SpecRow(ts: int, meta: Meta, body: string, workspace: Value): Row {
    Row(ts, SpecTags(PyStr(Field(meta, "id", Str(""))), workspace), RenderFrontmatter(meta, body))
  }

  /** Timestamps strictly increase and every row carries the tags a spec write puts on it. */
  ghost predicate LogOk(log: seq<Row>) {
    && (forall i, j :: 0 <= i < j < |log| ==> log[i].ts < log[j].ts)
    && forall row :: row in log ==> Tagged(row)
  }

  ghost predicate Tagged(row: Row) {
    exists rid, workspace :: row.tags == SpecTags(rid, workspace)
  }

  /** The specs the log stands for: for each routine id, the last one written. */
  function View(log: seq<Row>): map<string, Spec> {
    if log == [] then map[]
    else
      var earlier, last := View(log[..|log| - 1]), log[|log| - 1];
      if RoutineId(last) == "" then earlier else earlier[RoutineId(last) := ReadSpec(last)]
  }

  predicate Deleted(spec: Spec) { Truthy(Field(spec.meta, "deleted", Null)) }

  predicate Live(store: map<string, Spec>, rid: string) { rid in store && !Deleted(store[rid]) }

  function LiveSpecs(store: map<string, Spec>): map<string, Spec> {
    map rid | rid in store && !Deleted(store[rid]) :: store[rid]
  }

  function ScheduleOf(spec: Spec): Value { Field(spec.meta, "schedule", Null) }

  /** Enabled, which is the default, and with a schedule. */
  predicate OnSchedule(spec: Spec) {
    Truthy(Field(spec.meta, "enabled", Bool(true))) && Truthy(ScheduleOf(spec))
  }

  // ---- Merging a request into a spec ----

  const FLAG_KEYS := ["enabled", "single_fire", "deleted", "helper_auto_approve"]

  /** Flags become booleans; an interval that is no integer is dropped. */
  function Coerced(key: string, v: Value): Option<Value> {
    if key in FLAG_KEYS then Some(Bool(Truthy(v)))
    else if key == "interval_minutes" && v != Null then IntOf(v)
    else Some(v)
  }

  function Merged(fields: Meta, existing: Meta): Meta {
    var m := existing + (map k | k in fields && k in SPEC_KEYS :: fields[k]);
    map k | k in m && Coerced(k, m[k]).Some? :: Coerced(k, m[k]).value
  }

  /** A heading and the stripped text under it. */
  function Section(heading: string, text: string): string { heading + Text.Strip(text) + "\n" }

  function Compose(s: Sections): string {
    Section("# Purpose\n", s.purpose) + "\n" + Section("# Needs\n", s.needs)
    + "\n" + Section("# Steps\n", s.steps) + "\n" + Section("# Ending\n", s.ending)
  }

  function PromptOf(req: Request): string {
    if req.sections.Some? then Compose(req.sections.value)
    else if req.prompt.Some? then req.prompt.value
    else ""
  }

  // ---- Slugs ----

  predicate IsSlugChar(c: char) { 'a' <= c <= 'z' || Text.IsDigit(c) }

  /** Each run of other characters becomes one hyphen; `inRun` says whether one is already being replaced. */
  function Hyphenate(s: string, inRun: bool): string {
    if s == "" then ""
    else if IsSlugChar(s[0]) then [s[0]] + Hyphenate(s[1..], false)
    else (if inRun then "" else "-") + Hyphenate(s[1..], true)
  }

  /** `s.rstrip("-")`. */
  function DropHyphens(s: string): string {
    if s != "" && s[|s| - 1] == '-' then DropHyphens(s[..|s| - 1]) else s
  }

  const SLUG_LENGTH := 48

  function Slugify(name: string): string {
    var s := Text.StripChar(Hyphenate(Text.Lower(name), false), '-');
    DropHyphens(if |s| > SLUG_LENGTH then s[..SLUG_LENGTH] else s)
  }

  // ---- Create, update, delete as decisions over the specs and rows to append ----

  /** `(fields.get(key) or "").strip()`; None where a non-string has no `strip`. */
  function Trimmed(fields: Meta, key: string): Option<string> {
    var v := Field(fields, key, Null);
    if !Truthy(v) then Some("") else if v.Str? then Some(Text.Strip(v.s)) else None
  }

  /** The id a create request asks for, and its fields with that id filled in from the name when absent. */
  function Identified(req: Request): (string, Meta)
    requires Trimmed(req.fields, "id").Some? && Trimmed(req.fields, "name").Some?
  {
    var rid, name := Trimmed(req.fields, "id").value, Trimmed(req.fields, "name").value;
    if rid == "" && name != "" then (Slugify(name), req.fields["id" := Str(Slugify(name))]) else (rid, req.fields)
  }

  function CreateOutcome(store: map<string, Spec>, req: Request, cron: Value -> CronVerdict): Outcome {
    if Trimmed(req.fields, "id").None? || Trimmed(req.fields, "name").None? then Fault
    else
      var (rid, fields) := Identified(req);
      if rid == "" || Trimmed(req.fields, "name").value == "" then MissingField
      else if Live(store, rid) then AlreadyExists
      else
        match cron(Field(fields, "schedule", Null))
        case Raises => Fault
        case Invalid => BadSchedule
        case Valid => Done(rid)
  }

  function WithDefaults(meta: Meta): Meta {
    map["enabled" := Bool(true), "permission_mode" := Str("auto"), "deleted" := Bool(false)] + meta
  }

  function CreatedMeta(req: Request): Meta
    requires Trimmed(req.fields, "id").Some? && Trimmed(req.fields, "name").Some?
  {
    WithDefaults(Merged(Identified(req).1, map[]))
  }

  function CreateRow(ts: int, req: Request): Row
    requires Trimmed(req.fields, "id").Some? && Trimmed(req.fields, "name").Some?
  {
    SpecRow(ts, CreatedMeta(req), PromptOf(req), Field(CreatedMeta(req), "workspace", Str("")))
  }

  function UpdateOutcome(store: map<string, Spec>, rid: string, req: Request, cron: Value -> CronVerdict): Outcome {
    if !Live(store, rid) then NotFound
    else if "schedule" !in req.fields then Done(rid)
    else
      match cron(req.fields["schedule"])
      case Raises => Fault
      case Invalid => BadSchedule
      case Valid => Done(rid)
  }

  function UpdatedMeta(spec: Spec, rid: string, req: Request): Meta {
    Merged(req.fields["id" := Str(rid)], spec.meta)
  }

  /** The prompt sections of an update count only when a freeform prompt is sent along. */
  function UpdatedBody(spec: Spec, req: Request): string {
    if req.prompt.None? then spec.body else PromptOf(req)
  }

  function UpdatedWorkspace(spec: Spec, rid: string, req: Request): Value {
    var w := Field(UpdatedMeta(spec, rid, req), "workspace", Str(""));
    if Truthy(w) then w else spec.workspace
  }

  function UpdateRow(ts: int, spec: Spec, rid: string, req: Request): Row {
    SpecRow(ts, UpdatedMeta(spec, rid, req), UpdatedBody(spec, req), UpdatedWorkspace(spec, rid, req))
  }

  function DeletedMeta(spec: Spec, rid: string): Meta {
    map["id" := Str(rid)] + spec.meta["deleted" := Bool(true)]
  }

  function DeleteRow(ts: int, spec: Spec, rid: string): Row {
    SpecRow(ts, DeletedMeta(spec, rid), "", spec.workspace)
  }

  // ---- Facts about tags and the view ----

  lemma TagFacts(row: Row, rid: string, workspace: Value)
    requires row.tags == SpecTags(rid, workspace)
    ensures RoutineId(row) == rid
    ensures Text.TagValue(row.tags, "workspace:") == if Truthy(workspace) then PyStr(workspace) else ""
    ensures forall r :: "routine-id:" + r in row.tags <==> r == rid
  {
    var tags := row.tags;
    var ridTag, wTag := "routine-id:" + rid, "workspace:" + PyStr(workspace);
    var t1, t2, t3 := tags[1..], tags[2..], tags[3..];
    assert tags[0] == "spec" && t1[0] == "routine" && t1[1..] == t2 && t2[0] == ridTag && t2[1..] == t3;
    assert ridTag[..11] == "routine-id:" && ridTag[11..] == rid;
    assert wTag[..10] == "workspace:" && wTag[10..] == PyStr(workspace);
    assert "routine"[0] == 'r' && "spec"[0] == 's' && ridTag[..10][0] == 'r' && "workspace:"[0] == 'w';
    assert RoutineId(row) == Text.TagValue(t1, "routine-id:") == Text.TagValue(t2, "routine-id:") == rid;
    assert Text.TagValue(tags, "workspace:") == Text.TagValue(t1, "workspace:") == Text.TagValue(t2, "workspace:")
      == Text.TagValue(t3, "workspace:");
    if Truthy(workspace) { assert t3[0] == wTag; }
    forall r ensures "routine-id:" + r in tags <==> r == rid {
      var t := "routine-id:" + r;
      assert t[7] == '-' && t[0] == 'r' && t[11..] == r;
    }
  }

  lemma IdOfTagged(row: Row)
    requires Tagged(row)
    ensures forall r :: "routine-id:" + r in row.tags <==> r == RoutineId(row)
  {
    var rid, workspace :| row.tags == SpecTags(rid, workspace);
    TagFacts(row, rid, workspace);
  }

  /** `row` is the newest of `rows` for its routine. */
  ghost predicate Newest(rows: seq<Row>, row: Row) {
    row in rows && forall other :: other in rows && RoutineId(other) == RoutineId(row) ==> other.ts <= row.ts
  }

  /** The newest row of a routine is what the log stands for; a routine without rows is absent. */
  lemma {:induction false} ViewIsNewest(log: seq<Row>, row: Row)
    requires LogOk(log) && Newest(log, row) && RoutineId(row) != ""
    ensures RoutineId(row) in View(log) && View(log)[RoutineId(row)] == ReadSpec(row)
    decreases |log|
  {
    var init, last := log[..|log| - 1], log[|log| - 1];
    assert last in log;
    if RoutineId(last) == RoutineId(row) {
      var i :| 0 <= i < |log| && log[i] == row;
      assert i == |log| - 1;
    } else {
      ViewIsNewest(init, row);
    }
  }

  lemma {:induction false} ViewDomain(log: seq<Row>, rid: string)
    ensures rid in View(log) ==> rid != "" && exists row :: row in log && RoutineId(row) == rid
    decreases |log|
  {
    if rid in View(log) {
      var init, last := log[..|log| - 1], log[|log| - 1];
      if RoutineId(last) == rid && rid != "" {
        assert last in log;
      } else {
        ViewDomain(init, rid);
        var row :| row in init && RoutineId(row) == rid;
        assert row in log;
      }
    }
  }

  lemma ViewAppend(log: seq<Row>, row: Row)
    requires RoutineId(row) != ""
    ensures View(log + [row]) == View(log)[RoutineId(row) := ReadSpec(row)]
  {
    assert (log + [row])[..|log|] == log;
  }

  lemma SlugLetters(s: string, inRun: bool)
    ensures forall c :: c in Hyphenate(s, inRun) ==> IsSlugChar(c) || c == '-'
  {
  }

  lemma {:induction false} StripCharSubset(s: string, c: char)
    ensures forall d :: d in Text.StripChar(s, c) ==> d in s
    ensures Text.StripChar(s, c) != "" ==> Text.StripChar(s, c)[0] != c
    decreases |s|
  {
    if s != "" && s[0] == c { StripCharSubset(s[1..], c); }
    else if s != "" && s[|s| - 1] == c { StripCharSubset(s[..|s| - 1], c); }
  }

  lemma {:induction false} DropHyphensPrefix(s: string)
    ensures DropHyphens(s) <= s
    ensures DropHyphens(s) != "" ==> DropHyphens(s)[|DropHyphens(s)| - 1] != '-'
  {
    if s != "" && s[|s| - 1] == '-' { DropHyphensPrefix(s[..|s| - 1]); }
  }

  /** A slug is short, made of lower-case letters, digits and hyphens, and has no hyphen at either end. */
  lemma SlugShape(name: string)
    ensures var slug := Slugify(name);
      && |slug| <= SLUG_LENGTH
      && (forall c :: c in slug ==> IsSlugChar(c) || c == '-')
      && (slug != "" ==> IsSlugChar(slug[0]) && IsSlugChar(slug[|slug| - 1]))
      && Text.Strip(slug) == slug
  {
    var h := Hyphenate(Text.Lower(name), false);
    SlugLetters(Text.Lower(name), false);
    StripCharSubset(h, '-');
    var s := Text.StripChar(h, '-');
    var cut := if |s| > SLUG_LENGTH then s[..SLUG_LENGTH] else s;
    DropHyphensPrefix(cut);
    var slug := Slugify(name);
    assert slug <= cut <= s;
    forall c | c in slug ensures IsSlugChar(c) || c == '-' {
      var i :| 0 <= i < |slug| && slug[i] == c;
      assert s[i] == c && c in s;
    }
    if slug != "" {
      assert slug[0] == s[0] && slug[0] in slug && slug[|slug| - 1] in slug;
    }
  }

  // ---- The store ----

  /** Routine CRUD. `answer` is the lake's reply to the spec query: the log's rows, in whatever order. */
  class RoutineStore {
    var log: seq<Row>

    ghost predicate Answers(answer: seq<Row>)
      reads this
    {
      LogOk(log) && forall row :: row in answer <==> row in log
    }

    constructor ()
      ensures log == []
    {
      log := [];
    }

    /** The latest spec of each routine, as the list and the scheduler both gather it. */
    method LatestSpecs(answer: seq<Row>) returns (latest: map<string, Row>)
      requires Answers(answer)
      ensures latest.Keys == View(log).Keys
      ensures forall rid :: rid in latest ==> ReadSpec(latest[rid]) == View(log)[rid]
    {
      latest := map[];
      for i := 0 to |answer|
        invariant forall rid :: rid in latest ==>
          rid != "" && RoutineId(latest[rid]) == rid && Newest(answer[..i], latest[rid])
        invariant forall row :: row in answer[..i] && RoutineId(row) != "" ==> RoutineId(row) in latest
      {
        var row := answer[i];
        assert answer[..i + 1] == answer[..i] + [row];
        var rid := RoutineId(row);
        if rid == "" {
          continue;
        }
        if rid !in latest || row.ts > latest[rid].ts {
          latest := latest[rid := row];
        }
      }
      assert answer[..|answer|] == answer;
      forall rid | rid in latest ensures rid in View(log) && View(log)[rid] == ReadSpec(latest[rid]) {
        ViewIsNewest(log, latest[rid]);
      }
      forall rid | rid in View(log) ensures rid in latest {
        ViewDomain(log, rid);
      }
    }

    /** The routines that are listed: those whose latest spec is not a tombstone. */
    method List(answer: seq<Row>) returns (live: map<string, Spec>)
      requires Answers(answer)
      ensures live == LiveSpecs(View(log))
    {
      var latest := LatestSpecs(answer);
      live := map[];
      var todo := latest.Keys;
      while todo != {}
        invariant todo <= latest.Keys
        invariant forall rid :: rid in live <==> rid in latest && rid !in todo && !Deleted(ReadSpec(latest[rid]))
        invariant forall rid :: rid in live ==> live[rid] == ReadSpec(latest[rid])
        decreases |todo|
      {
        var rid :| rid in todo;
        todo := todo - {rid};
        var spec := ReadSpec(latest[rid]);
        if Deleted(spec) {
          continue;
        }
        live := live[rid := spec];
      }
    }

    /** The schedules the scheduler considers: live, enabled, with a schedule. */
    method Scheduled(answer: seq<Row>) returns (schedules: map<string, Value>)
      requires Answers(answer)
      ensures forall rid :: rid in schedules <==> Live(View(log), rid) && OnSchedule(View(log)[rid])
      ensures forall rid :: rid in schedules ==> rid in View(log) && schedules[rid] == ScheduleOf(View(log)[rid])
    {
      var live := List(answer);
      schedules := map[];
      var todo := live.Keys;
      while todo != {}
        invariant todo <= live.Keys
        invariant forall rid :: rid in schedules <==> rid in live && rid !in todo && OnSchedule(live[rid])
        invariant forall rid :: rid in schedules ==> schedules[rid] == ScheduleOf(live[rid])
        decreases |todo|
      {
        var rid :| rid in todo;
        todo := todo - {rid};
        if !Truthy(Field(live[rid].meta, "enabled", Bool(true))) || !Truthy(ScheduleOf(live[rid])) {
          continue;
        }
        schedules := schedules[rid := ScheduleOf(live[rid])];
      }
    }

    /** The latest spec of one routine, as create, update, delete and fire look it up. */
    method GetLatestSpec(rid: string, answer: seq<Row>) returns (spec: Option<Spec>)
      requires Answers(answer) && rid != ""
      ensures spec == if rid in View(log) then Some(View(log)[rid]) else None
    {
      var rows := Filter((row: Row) => "routine-id:" + rid in row.tags, answer);
      forall row | row in answer ensures row in rows <==> RoutineId(row) == rid {
        IdOfTagged(row);
      }
      ViewDomain(log, rid);
      if |rows| == 0 {
        return None;
      }
      var latest := LatestOf(rows);
      ViewIsNewest(log, latest);
      spec := Some(ReadSpec(latest));
    }

    /** `max(rows, key=ts)`. */
    static method LatestOf(rows: seq<Row>) returns (latest: Row)
      requires rows != []
      ensures latest in rows && forall row :: row in rows ==> row.ts <= latest.ts
    {
      latest := rows[0];
      for i := 1 to |rows|
        invariant latest in rows && forall j :: 0 <= j < i ==> rows[j].ts <= latest.ts
      {
        if rows[i].ts > latest.ts {
          latest := rows[i];
        }
      }
    }

    method MergeMeta(fields: Meta, existing: Meta) returns (meta: Meta)
      ensures meta == Merged(fields, existing)
    {
      ghost var m := existing + map k | k in fields && k in SPEC_KEYS :: fields[k];
      meta := Overridden(fields, existing, SPEC_KEYS);
      meta := WithFlags(meta);
      meta := WithInterval(meta);
      CoercedAll(m, meta);
    }

    method WithInterval(m: Meta) returns (meta: Meta)
      ensures var n := Field(m, "interval_minutes", Null);
        meta == if n == Null then m
                else if IntOf(n).Some? then m["interval_minutes" := IntOf(n).value]
                else m - {"interval_minutes"}
    {
      meta := m;
      if Field(meta, "interval_minutes", Null) != Null {
        var n := IntOf(meta["interval_minutes"]);
        if n.Some? {
          meta := meta["interval_minutes" := n.value];
        } else {
          meta := meta - {"interval_minutes"};
        }
      }
    }

    lemma CoercedAll(m: Meta, meta: Meta)
      requires forall k :: k in meta <==> k in m && Coerced(k, m[k]).Some?
      requires forall k :: k in meta ==> Some(meta[k]) == Coerced(k, m[k])
      ensures meta == map k | k in m && Coerced(k, m[k]).Some? :: Coerced(k, m[k]).value
    {
    }

    /** The fields of the request with the given keys on top of the existing ones. */
    method Overridden(fields: Meta, existing: Meta, keys: seq<string>) returns (meta: Meta)
      ensures meta == existing + (map k | k in fields && k in keys :: fields[k])
    {
      meta := existing;
      for i := 0 to |keys|
        invariant meta == existing + (map k | k in fields && k in keys[..i] :: fields[k])
      {
        assert keys[..i + 1] == keys[..i] + [keys[i]];
        if keys[i] in fields {
          meta := meta[keys[i] := fields[keys[i]]];
        }
      }
      assert keys[..|keys|] == keys;
    }

    method WithFlags(m: Meta) returns (meta: Meta)
      ensures meta.Keys == m.Keys
      ensures forall k :: k in m ==> meta[k] == if k in FLAG_KEYS then Bool(Truthy(m[k])) else m[k]
    {
      meta := m;
      if "enabled" in meta { meta := meta["enabled" := Bool(Truthy(meta["enabled"]))]; }
      if "single_fire" in meta { meta := meta["single_fire" := Bool(Truthy(meta["single_fire"]))]; }
      if "deleted" in meta { meta := meta["deleted" := Bool(Truthy(meta["deleted"]))]; }
      if "helper_auto_approve" in meta {
        meta := meta["helper_auto_approve" := Bool(Truthy(meta["helper_auto_approve"]))];
      }
    }

    method SetDefaults(m: Meta) returns (meta: Meta)
      ensures meta == WithDefaults(m)
    {
      meta := m;
      if "enabled" !in meta { meta := meta["enabled" := Bool(true)]; }
      if "permission_mode" !in meta { meta := meta["permission_mode" := Str("auto")]; }
      if "deleted" !in meta { meta := meta["deleted" := Bool(false)]; }
    }

    /** The checks of a create request, and its fields with the id filled in. */
    method Admit(req: Request, cron: Value -> CronVerdict, answer: seq<Row>) returns (outcome: Outcome, fields: Meta)
      requires Answers(answer)
      ensures outcome == CreateOutcome(View(log), req, cron)
      ensures outcome.Done? ==> fields == Identified(req).1
    {
      fields := req.fields;
      var id, name := Trimmed(fields, "id"), Trimmed(fields, "name");
      if id.None? || name.None? {
        return Fault, fields;
      }
      var rid := id.value;
      if rid == "" && name.value != "" {
        rid := Slugify(name.value);
        fields := fields["id" := Str(rid)];
      }
      if rid == "" || name.value == "" {
        return MissingField, fields;
      }
      var existing := GetLatestSpec(rid, answer);
      if existing.Some? && !Deleted(existing.value) {
        return AlreadyExists, fields;
      }
      match cron(Field(fields, "schedule", Null)) {
        case Raises => outcome := Fault;
        case Invalid => outcome := BadSchedule;
        case Valid => outcome := Done(rid);
      }
    }

    method Create(req: Request, cron: Value -> CronVerdict, answer: seq<Row>, now: int) returns (outcome: Outcome)
      requires Answers(answer) && forall row :: row in log ==> row.ts < now
      modifies this
      ensures LogOk(log)
      ensures outcome == CreateOutcome(View(old(log)), req, cron)
      ensures log == if outcome.Done? then old(log) + [CreateRow(now, req)] else old(log)
    {
      var fields;
      outcome, fields := Admit(req, cron, answer);
      if !outcome.Done? {
        return;
      }
      var meta := MergeMeta(fields, map[]);
      meta := SetDefaults(meta);
      assert meta == CreatedMeta(req);
      WriteSpec(now, meta, PromptOf(req), Field(meta, "workspace", Str("")));
    }

    method WriteSpec(now: int, meta: Meta, body: string, workspace: Value)
      requires LogOk(log) && forall row :: row in log ==> row.ts < now
      modifies this
      ensures LogOk(log) && log == old(log) + [SpecRow(now, meta, body, workspace)]
    {
      log := log + [SpecRow(now, meta, body, workspace)];
    }

    method Update(rid: string, req: Request, cron: Value -> CronVerdict, answer: seq<Row>, now: int)
      returns (outcome: Outcome)
      requires Answers(answer) && rid != "" && forall row :: row in log ==> row.ts < now
      modifies this
      ensures LogOk(log)
      ensures outcome == UpdateOutcome(View(old(log)), rid, req, cron)
      ensures log == if outcome.Done? then old(log) + [UpdateRow(now, View(old(log))[rid], rid, req)] else old(log)
    {
      var existing := GetLatestSpec(rid, answer);
      if existing.None? || Deleted(existing.value) {
        return NotFound;
      }
      if "schedule" in req.fields {
        match cron(req.fields["schedule"]) {
          case Raises => return Fault;
          case Invalid => return BadSchedule;
          case Valid =>
        }
      }
      var meta := MergeMeta(req.fields["id" := Str(rid)], existing.value.meta);
      var prompt, workspace := PromptOf(req), Field(meta, "workspace", Str(""));
      if req.prompt.None? {
        prompt := existing.value.body;
      }
      if !Truthy(workspace) {
        workspace := existing.value.workspace;
      }
      WriteSpec(now, meta, prompt, workspace);
      outcome := Done(rid);
    }

    method SoftDelete(rid: string, answer: seq<Row>, now: int) returns (outcome: Outcome)
      requires Answers(answer) && rid != "" && forall row :: row in log ==> row.ts < now
      modifies this
      ensures LogOk(log)
      ensures outcome == if Live(View(old(log)), rid) then Done(rid) else NotFound
      ensures log == if outcome.Done? then old(log) + [DeleteRow(now, View(old(log))[rid], rid)] else old(log)
    {
      var existing := GetLatestSpec(rid, answer);
      if existing.None? || Deleted(existing.value) {
        return NotFound;
      }
      var meta := existing.value.meta["deleted" := Bool(true)];
      if "id" !in meta { meta := meta["id" := Str(rid)]; }
      assert meta == DeletedMeta(existing.value, rid);
      WriteSpec(now, meta, "", existing.value.workspace);
      outcome := Done(rid);
    }
  }
}
