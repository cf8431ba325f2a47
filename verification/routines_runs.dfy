/** The spec log refines a map: what create, update and delete do to the specs that read back, over whole runs. */
module RoutinesRuns {
  import opened Sequences
  import opened Frontmatter
  import opened FrontmatterRoundTrip
  import opened Routines
  import Text

  // ---- Which ids a spec can carry ----

  /** Decimal without a superfluous leading zero. */
  predicate Numeral(s: string) { Text.IsDigits(s) && (s == "0" || s[0] != '0') }

  /** The ids that come back unchanged from the frontmatter. */
  predicate Addressable(rid: string) { Plain(rid) || Numeral(rid) || rid == "True" || rid == "False" }

  lemma {:induction false} NumeralPrinted(n: nat)
    ensures Numeral(Text.NatToString(n))
    ensures n > 0 ==> Text.NatToString(n)[0] != '0'
  {
    if n >= 10 {
      NumeralPrinted(n / 10);
      assert Text.NatToString(n)[0] == Text.NatToString(n / 10)[0];
    }
  }

  lemma {:induction false} NumeralReprinted(s: string)
    requires Numeral(s)
    ensures Text.NatToString(Text.ParseNat(s)) == s
    ensures s != "0" ==> Text.ParseNat(s) > 0
  {
    var init := s[..|s| - 1];
    if init == "" {
      assert s == [s[0]];
    } else {
      assert init[0] == s[0] && s != "0";
      NumeralReprinted(init);
      assert s == init + [s[|s| - 1]];
      var d := s[|s| - 1] as int - '0' as int;
      assert (Text.ParseNat(init) * 10 + d) / 10 == Text.ParseNat(init);
    }
  }

  /** The id that a spec written under `rid` carries when read back. */
  function ReadId(rid: string): string { PyStr(Reread(Str(rid))) }

  lemma DigitsRenderPlain(rid: string)
    requires Text.IsDigits(rid)
    ensures RenderValue(Str(rid)) == rid
  {
    assert forall i :: 0 <= i < |rid| ==> Text.IsDigit(rid[i]);
    assert rid[..1] != "*" by { assert rid[..1][0] == rid[0]; }
  }

  lemma DigitsParse(rid: string)
    requires Text.IsDigits(rid)
    ensures ParseValue(" " + rid) == Int(Text.ParseNat(rid))
  {
    TightValue(rid);
    NoQuotes(rid);
    assert Text.Lower(rid)[0] == rid[0];
  }

  /** A string of digits is read as a number and the number written without leading zeros. */
  lemma DigitsReadAsNumber(rid: string)
    requires Text.IsDigits(rid)
    ensures ReadId(rid) == Text.NatToString(Text.ParseNat(rid))
  {
    DigitsRenderPlain(rid);
    DigitsParse(rid);
  }

  lemma NumeralReads(rid: string)
    requires Numeral(rid)
    ensures ReadId(rid) == rid
  {
    NumeralReprinted(rid);
    DigitsReadAsNumber(rid);
  }

  lemma WordReads(rid: string, b: bool)
    requires rid != "" && !Quoted(rid) && EdgesFree(IsQuote, rid) && EdgesFree(Text.IsSpace, rid)
    requires Text.Lower(rid) == if b then "true" else "false"
    ensures Reread(Str(rid)) == Bool(b)
  {
    TightValue(rid);
    NoQuotes(rid);
    assert "true" != "false" by { assert "true"[0] != "false"[0]; }
  }

  lemma BooleanWordReads(rid: string)
    requires rid == "True" || rid == "False"
    ensures ReadId(rid) == rid
  {
    BooleanWords();
    assert rid[..1][0] == rid[0];
    WordReads(rid, rid == "True");
  }

  /** A spec written under an id is found under that id when read back exactly when the id is addressable. */
  lemma AddressableIff(rid: string)
    ensures ReadId(rid) == rid <==> Addressable(rid)
  {
    ValueSurvivesIff(Str(rid));
    if Numeral(rid) {
      NumeralReads(rid);
    } else if rid == "True" || rid == "False" {
      BooleanWordReads(rid);
    } else if ReadId(rid) == rid {
      var v := Reread(Str(rid));
      assert v != Null;
      if v.Int? {
        assert v.n >= 0;
        NumeralPrinted(v.n);
      }
    }
  }

  lemma BooleanWords()
    ensures Text.Lower("True") == "true" && Text.Lower("False") == "false"
  {
    assert "True"[1..] == "rue" && "False"[1..] == "alse";
    assert Text.Lower("rue") == "rue" && Text.Lower("alse") == "alse";
  }

  /** Reading an addressable id once or twice gives the same value. */
  lemma RereadIdStable(rid: string)
    requires Addressable(rid)
    ensures Reread(Reread(Str(rid))) == Reread(Str(rid))
  {
    AddressableIff(rid);
    var v := Reread(Str(rid));
    ValueSurvivesIff(v);
    ValueSurvivesIff(Str(rid));
    if v.Str? { assert v == Str(rid); }
  }

  // ---- One write, read back ----

  /** What the row of a spec reads back as. */
  function Written(meta: Meta, body: string, workspace: Value): Spec {
    var (meta', body') := ParseFrontmatter(RenderFrontmatter(meta, body));
    Spec(meta', body', if Truthy(workspace) then Str(PyStr(workspace)) else Field(meta', "workspace", Str("")))
  }

  /** The same in closed form, for a spec without line breaks. */
  function Stored(meta: Meta, body: string, workspace: Value): Spec {
    Spec(ReadBack(meta), Text.DropNewlines(body),
         if Truthy(workspace) then Str(PyStr(workspace)) else Field(ReadBack(meta), "workspace", Str("")))
  }

  lemma WriteReads(ts: int, meta: Meta, body: string, workspace: Value)
    ensures ReadSpec(SpecRow(ts, meta, body, workspace)) == Written(meta, body, workspace)
    ensures RoutineId(SpecRow(ts, meta, body, workspace)) == PyStr(Field(meta, "id", Str("")))
  {
    TagFacts(SpecRow(ts, meta, body, workspace), PyStr(Field(meta, "id", Str(""))), workspace);
    if Truthy(workspace) { assert PyStr(workspace) != ""; }
  }

  lemma WrittenIsStored(meta: Meta, body: string, workspace: Value)
    requires OneLiners(meta)
    ensures Written(meta, body, workspace) == Stored(meta, body, workspace)
  {
    RoundTrip(meta, body);
  }

  lemma WriteReadsBack(ts: int, meta: Meta, body: string, workspace: Value)
    requires OneLiners(meta)
    ensures ReadSpec(SpecRow(ts, meta, body, workspace)) == Stored(meta, body, workspace)
    ensures RoutineId(SpecRow(ts, meta, body, workspace)) == PyStr(Field(meta, "id", Str("")))
  {
    WriteReads(ts, meta, body, workspace);
    WrittenIsStored(meta, body, workspace);
  }

  lemma DropNewlinesTwice(s: string)
    ensures Text.DropNewlines(Text.DropNewlines(s)) == Text.DropNewlines(s)
  {
  }

  lemma ReadBackOneLiners(meta: Meta)
    requires OneLiners(meta)
    ensures OneLiners(ReadBack(meta))
  {
    forall k | k in ReadBack(meta) ensures OneLine(ReadBack(meta)[k]) { RereadOneLine(meta[k]); }
  }

  // ---- What every row keeps ----

  /** The spec under `rid` names `rid` itself, can be written again line by line, and has a settled body. */
  ghost predicate Tidy(rid: string, spec: Spec) {
    && rid != "" && Addressable(rid) && SingleLine(rid)
    && OneLiners(spec.meta)
    && "id" in spec.meta && spec.meta["id"] == Reread(Str(rid))
    && Text.DropNewlines(spec.body) == spec.body
  }

  ghost predicate TidyStore(store: map<string, Spec>) {
    forall rid :: rid in store ==> Tidy(rid, store[rid])
  }

  ghost predicate TidyRequest(req: Request) { OneLiners(req.fields) }

  lemma IdIsKnown()
    ensures "id" in SPEC_KEYS && "id" !in FLAG_KEYS && "deleted" in SPEC_KEYS && "deleted" in FLAG_KEYS
    ensures "workspace" in SPEC_KEYS
  {
    assert SPEC_KEYS[0] == "id" && SPEC_KEYS[10] == "deleted" && SPEC_KEYS[5] == "workspace";
    assert FLAG_KEYS[2] == "deleted";
    assert "id"[0] == 'i' && "enabled"[0] == 'e' && "single_fire"[0] == 's';
    assert "deleted"[0] == 'd' && "helper_auto_approve"[0] == 'h';
  }

  lemma CoercedOneLine(k: string, v: Value)
    requires OneLine(v)
    ensures Coerced(k, v).Some? ==> OneLine(Coerced(k, v).value)
  {
  }

  lemma MergedOneLiners(fields: Meta, existing: Meta)
    requires OneLiners(existing) && OneLiners(fields)
    ensures OneLiners(Merged(fields, existing))
  {
    var merged := Merged(fields, existing);
    forall k | k in merged && k in SPEC_KEYS ensures OneLine(merged[k]) {
      CoercedOneLine(k, if k in fields then fields[k] else existing[k]);
    }
  }

  lemma MergedId(fields: Meta, existing: Meta)
    requires "id" in fields
    ensures "id" in Merged(fields, existing) && Merged(fields, existing)["id"] == fields["id"]
  {
    IdIsKnown();
  }

  lemma MergedDeleted(fields: Meta)
    ensures Field(Merged(fields, map[]), "deleted", Bool(false)) == Bool(Truthy(Field(fields, "deleted", Null)))
  {
    IdIsKnown();
  }

  /** A row written for id `rid` rebinds `rid` to a tidy spec. */
  lemma WriteRefines(log: seq<Row>, ts: int, rid: string, meta: Meta, body: string, workspace: Value)
    requires OneLiners(meta) && "id" in meta && rid != "" && Addressable(rid) && SingleLine(rid)
    requires meta["id"] == Str(rid) || meta["id"] == Reread(Str(rid))
    ensures Tidy(rid, Stored(meta, body, workspace))
    ensures View(log + [SpecRow(ts, meta, body, workspace)]) == View(log)[rid := Stored(meta, body, workspace)]
  {
    var row := SpecRow(ts, meta, body, workspace);
    WriteReadsBack(ts, meta, body, workspace);
    AddressableIff(rid);
    assert RoutineId(row) == rid;
    ViewAppend(log, row);
    WrittenIsTidy(rid, meta, body, workspace);
  }

  lemma WrittenIsTidy(rid: string, meta: Meta, body: string, workspace: Value)
    requires OneLiners(meta) && "id" in meta && rid != "" && Addressable(rid) && SingleLine(rid)
    requires meta["id"] == Str(rid) || meta["id"] == Reread(Str(rid))
    ensures Tidy(rid, Stored(meta, body, workspace))
  {
    RereadIdStable(rid);
    RereadOneLine(Str(rid));
    ReadBackOneLiners(meta);
    DropNewlinesTwice(body);
    IdRead(meta);
  }

  lemma IdRead(meta: Meta)
    requires "id" in meta && meta["id"] != Null
    ensures "id" in ReadBack(meta) && ReadBack(meta)["id"] == Reread(meta["id"])
  {
    IdIsKnown();
  }

  lemma FlagRead(meta: Meta, b: bool)
    requires "deleted" in meta && meta["deleted"] == Bool(b)
    ensures "deleted" in ReadBack(meta) && ReadBack(meta)["deleted"] == Bool(b)
  {
    IdIsKnown();
    ValueSurvivesIff(Bool(b));
  }

  // ---- Create ----

  lemma CreatedId(req: Request)
    requires Trimmed(req.fields, "id").Some? && Trimmed(req.fields, "name").Some? && "id" in Identified(req).1
    ensures "id" in CreatedMeta(req) && CreatedMeta(req)["id"] == Identified(req).1["id"]
  {
    IdIsKnown();
    assert "id"[0] == 'i' && "enabled"[0] == 'e' && "permission_mode"[0] == 'p' && "deleted"[0] == 'd';
  }

  lemma IdentifiedId(req: Request)
    requires Trimmed(req.fields, "id").Some? && Trimmed(req.fields, "name").Some? && Identified(req).0 != ""
    ensures "id" in Identified(req).1 && Identified(req).1["id"].Str?
  {
  }

  /** A successful create stores its spec under the requested id exactly when that id came without edge whitespace. */
  lemma CreateTagIff(store: map<string, Spec>, req: Request, cron: Value -> CronVerdict, ts: int)
    requires CreateOutcome(store, req, cron).Done?
    ensures "id" in Identified(req).1
    ensures var rid := CreateOutcome(store, req, cron).rid;
      RoutineId(CreateRow(ts, req)) == rid <==> Identified(req).1["id"] == Str(rid)
  {
    IdentifiedId(req);
    CreatedId(req);
    TagFacts(CreateRow(ts, req), PyStr(CreatedMeta(req)["id"]), Field(CreatedMeta(req), "workspace", Str("")));
  }

  lemma SlugIsSingleLine(name: string)
    ensures SingleLine(Slugify(name))
  {
    SlugShape(name);
    var slug := Slugify(name);
    forall i | 0 <= i < |slug| ensures !Text.IsLineBreak(slug[i]) { assert slug[i] in slug; }
  }

  /** The id of a create request that can be stored under its own name. */
  ghost predicate TidyId(req: Request) {
    && Trimmed(req.fields, "id").Some? && Trimmed(req.fields, "name").Some?
    && var (rid, fields) := Identified(req);
      "id" in fields && fields["id"] == Str(rid) && Addressable(rid)
  }

  /** What a create request stores. */
  function CreatedSpec(req: Request): Spec
    requires Trimmed(req.fields, "id").Some? && Trimmed(req.fields, "name").Some?
  {
    Stored(CreatedMeta(req), PromptOf(req), Field(CreatedMeta(req), "workspace", Str("")))
  }

  lemma CreatedMetaFacts(req: Request)
    requires TidyRequest(req) && TidyId(req)
    ensures var meta := CreatedMeta(req);
      && OneLiners(meta)
      && "id" in meta && meta["id"] == Str(Identified(req).0)
      && "deleted" in meta && meta["deleted"] == Bool(Truthy(Field(req.fields, "deleted", Null)))
  {
    var fields := Identified(req).1;
    assert "deleted" in fields <==> "deleted" in req.fields;
    IdentifiedOneLine(req);
    MergedOneLiners(fields, map[]);
    MergedId(fields, map[]);
    MergedDeleted(fields);
    DefaultsFacts(Merged(fields, map[]));
  }

  lemma IdentifiedOneLiners(req: Request)
    requires TidyRequest(req) && Trimmed(req.fields, "id").Some? && Trimmed(req.fields, "name").Some?
    ensures OneLiners(Identified(req).1)
  {
    SlugIsSingleLine(Trimmed(req.fields, "name").value);
  }

  lemma IdentifiedOneLine(req: Request)
    requires TidyRequest(req) && TidyId(req)
    ensures SingleLine(Identified(req).0) && OneLiners(Identified(req).1)
  {
    IdIsKnown();
    IdentifiedOneLiners(req);
  }

  lemma DefaultsFacts(meta: Meta)
    requires OneLiners(meta) && "id" in meta
    ensures OneLiners(WithDefaults(meta))
    ensures "id" in WithDefaults(meta) && WithDefaults(meta)["id"] == meta["id"]
    ensures "deleted" in WithDefaults(meta) && WithDefaults(meta)["deleted"] == Field(meta, "deleted", Bool(false))
  {
    var auto := Str("auto");
    assert SingleLine(auto.s);
  }

  lemma CreatedDeleted(req: Request)
    requires TidyRequest(req) && TidyId(req)
    ensures Deleted(CreatedSpec(req)) <==> Truthy(Field(req.fields, "deleted", Null))
  {
    CreatedMetaFacts(req);
    FlagRead(CreatedMeta(req), Truthy(Field(req.fields, "deleted", Null)));
  }

  lemma CreateWriteRefines(log: seq<Row>, req: Request, ts: int)
    requires TidyRequest(req) && TidyId(req) && Identified(req).0 != ""
    ensures View(log + [CreateRow(ts, req)]) == View(log)[Identified(req).0 := CreatedSpec(req)]
    ensures Tidy(Identified(req).0, CreatedSpec(req))
  {
    CreatedMetaFacts(req);
    IdentifiedOneLine(req);
    var meta := CreatedMeta(req);
    WriteRefines(log, ts, Identified(req).0, meta, PromptOf(req), Field(meta, "workspace", Str("")));
  }

  /** A create that succeeds binds its id to the spec it asked for and touches no other routine. */
  lemma CreateRefines(log: seq<Row>, req: Request, cron: Value -> CronVerdict, ts: int)
    requires CreateOutcome(View(log), req, cron).Done? && TidyRequest(req) && TidyId(req)
    ensures var rid := CreateOutcome(View(log), req, cron).rid;
      && View(log + [CreateRow(ts, req)]) == View(log)[rid := CreatedSpec(req)]
      && Tidy(rid, CreatedSpec(req))
      && (Deleted(CreatedSpec(req)) <==> Truthy(Field(req.fields, "deleted", Null)))
  {
    var rid := CreateOutcome(View(log), req, cron).rid;
    assert rid == Identified(req).0;
    CreateWriteRefines(log, req, ts);
    CreatedDeleted(req);
  }

  // ---- Update ----

  function UpdatedSpec(spec: Spec, rid: string, req: Request): Spec {
    Stored(UpdatedMeta(spec, rid, req), UpdatedBody(spec, req), UpdatedWorkspace(spec, rid, req))
  }

  lemma UpdatedMetaFacts(spec: Spec, rid: string, req: Request)
    requires Tidy(rid, spec) && TidyRequest(req)
    ensures var meta := UpdatedMeta(spec, rid, req);
      OneLiners(meta) && "id" in meta && meta["id"] == Str(rid)
  {
    var fields := req.fields["id" := Str(rid)];
    MergedOneLiners(fields, spec.meta);
    MergedId(fields, spec.meta);
  }

  /** An update that succeeds rebinds its id and touches no other routine; without a freeform prompt the body stays. */
  lemma UpdateRefines(log: seq<Row>, rid: string, req: Request, ts: int)
    requires Live(View(log), rid) && TidyStore(View(log)) && TidyRequest(req)
    ensures var spec := View(log)[rid];
      && View(log + [UpdateRow(ts, spec, rid, req)]) == View(log)[rid := UpdatedSpec(spec, rid, req)]
      && Tidy(rid, UpdatedSpec(spec, rid, req))
      && UpdatedSpec(spec, rid, req).body == if req.prompt.None? then spec.body else Text.DropNewlines(PromptOf(req))
  {
    var spec := View(log)[rid];
    var meta, body, workspace := UpdatedMeta(spec, rid, req), UpdatedBody(spec, req), UpdatedWorkspace(spec, rid, req);
    UpdatedMetaFacts(spec, rid, req);
    WriteRefines(log, ts, rid, meta, body, workspace);
  }

  /** An update leaves every known field it does not name as it was, if the field's value is one that survives
      writing. */
  lemma UpdateKeepsTheRest(spec: Spec, rid: string, req: Request, k: string)
    requires k in SPEC_KEYS && k != "id" && k !in req.fields && k in spec.meta
    requires spec.meta[k] != Null && Representable(spec.meta[k]) && Coerced(k, spec.meta[k]) == Some(spec.meta[k])
    ensures k in UpdatedSpec(spec, rid, req).meta && UpdatedSpec(spec, rid, req).meta[k] == spec.meta[k]
  {
    ValueSurvivesIff(spec.meta[k]);
    assert k !in req.fields["id" := Str(rid)];
  }

  lemma ComposedIsSettled(sections: Sections)
    ensures Text.DropNewlines(Compose(sections)) == Compose(sections)
  {
    assert Compose(sections)[0] == "# Purpose\n"[0] == '#';
  }

  /** Prompt sections sent with an update reach the stored body only when a freeform prompt is sent along, which they
      then override; otherwise they are dropped, unless the body already read so. */
  lemma SectionsKeptIff(spec: Spec, rid: string, req: Request)
    requires Tidy(rid, spec) && req.sections.Some?
    ensures UpdatedSpec(spec, rid, req).body == Compose(req.sections.value)
      <==> req.prompt.Some? || spec.body == Compose(req.sections.value)
  {
    ComposedIsSettled(req.sections.value);
  }

  // ---- Delete ----

  function DeletedSpec(spec: Spec, rid: string): Spec {
    Stored(DeletedMeta(spec, rid), "", spec.workspace)
  }

  lemma DeletedMetaFacts(spec: Spec, rid: string)
    requires OneLiners(spec.meta) && "id" in spec.meta
    ensures var meta := DeletedMeta(spec, rid);
      && OneLiners(meta)
      && "id" in meta && meta["id"] == spec.meta["id"]
      && "deleted" in meta && meta["deleted"] == Bool(true)
  {
  }

  lemma TombstoneIsDeleted(spec: Spec, rid: string)
    requires OneLiners(spec.meta) && "id" in spec.meta
    ensures Deleted(DeletedSpec(spec, rid))
  {
    DeletedMetaFacts(spec, rid);
    FlagRead(DeletedMeta(spec, rid), true);
  }

  /** A delete that succeeds tombstones its id and touches no other routine. */
  lemma DeleteRefines(log: seq<Row>, rid: string, ts: int)
    requires Live(View(log), rid) && TidyStore(View(log))
    ensures var spec := View(log)[rid];
      && View(log + [DeleteRow(ts, spec, rid)]) == View(log)[rid := DeletedSpec(spec, rid)]
      && Tidy(rid, DeletedSpec(spec, rid))
      && Deleted(DeletedSpec(spec, rid))
  {
    var spec := View(log)[rid];
    DeletedMetaFacts(spec, rid);
    WriteRefines(log, ts, rid, DeletedMeta(spec, rid), "", spec.workspace);
    TombstoneIsDeleted(spec, rid);
  }

  lemma TombstoneTag(spec: Spec, rid: string, ts: int)
    requires OneLiners(spec.meta) && "id" in spec.meta
    ensures RoutineId(DeleteRow(ts, spec, rid)) == PyStr(spec.meta["id"])
    ensures ReadSpec(DeleteRow(ts, spec, rid)) == DeletedSpec(spec, rid)
    ensures Deleted(ReadSpec(DeleteRow(ts, spec, rid)))
  {
    DeletedMetaFacts(spec, rid);
    WriteReadsBack(ts, DeletedMeta(spec, rid), "", spec.workspace);
    TombstoneIsDeleted(spec, rid);
  }

  /** Deleting a live routine whose spec was written under its id, whatever happened since, puts the tombstone on the id
      that reads back, and removes the routine exactly when the id is addressable. */
  lemma DeleteHitsIff(log: seq<Row>, rid: string, ts: int)
    requires Live(View(log), rid) && rid != ""
    requires var meta := View(log)[rid].meta; OneLiners(meta) && "id" in meta && meta["id"] == Reread(Str(rid))
    ensures var tomb := DeleteRow(ts, View(log)[rid], rid);
      && RoutineId(tomb) == ReadId(rid)
      && (ReadId(rid) != "" ==> View(log + [tomb]) == View(log)[ReadId(rid) := DeletedSpec(View(log)[rid], rid)])
      && (Live(View(log + [tomb]), rid) <==> !Addressable(rid))
  {
    var spec := View(log)[rid];
    TombstoneTag(spec, rid, ts);
    var tomb := DeleteRow(ts, spec, rid);
    AddressableIff(rid);
    if RoutineId(tomb) == "" {
      assert (log + [tomb])[..|log|] == log;
    } else {
      ViewAppend(log, tomb);
    }
  }

  /** A create writes such a spec. */
  lemma WrittenUnderId(log: seq<Row>, rid: string, meta: Meta, body: string, workspace: Value, ts: int)
    requires OneLiners(meta) && "id" in meta && meta["id"] == Str(rid) && rid != ""
    requires "deleted" in meta && meta["deleted"] == Bool(false)
    ensures var log' := log + [SpecRow(ts, meta, body, workspace)];
      && Live(View(log'), rid) && OneLiners(View(log')[rid].meta)
      && "id" in View(log')[rid].meta && View(log')[rid].meta["id"] == Reread(Str(rid))
  {
    WriteReadsBack(ts, meta, body, workspace);
    ViewAppend(log, SpecRow(ts, meta, body, workspace));
    FlagRead(meta, false);
    IdRead(meta);
    ReadBackOneLiners(meta);
  }

  /** The routine `007` cannot be deleted: its tombstone goes to `7`. */
  lemma SevenIsHit(rid: string)
    requires rid == "007"
    ensures !Addressable(rid) && ReadId(rid) == "7"
  {
    DigitsReadAsNumber(rid);
    SevenParses(rid);
    assert Text.NatToString(7) == "7";
    AddressableIff(rid);
    assert |"7"| == 1;
  }

  lemma SevenParses(s: string)
    requires s == "007"
    ensures Text.ParseNat(s) == 7
  {
    var zeros, zero := s[..2], s[..1];
    assert zeros[..1] == zero && zero[..0] == "" && Text.ParseNat("") == 0;
    assert Text.ParseNat(zero) == 0;
    assert Text.ParseNat(zeros) == 0;
    assert s[..|s| - 1] == zeros && s[2] == '7';
  }

  // ---- Whole runs ----

  datatype Op =
    | Create(req: Request)
    | Update(rid: string, req: Request)
    | Delete(rid: string)

  /** One request and the lake timestamp its write, if any, is given. */
  datatype Call = Call(ts: int, op: Op)

  ghost predicate TidyOp(op: Op) {
    match op
    case Create(req) => TidyRequest(req) && TidyId(req)
    case Update(_, req) => TidyRequest(req)
    case Delete(_) => true
  }

  function LogStep(log: seq<Row>, call: Call, cron: Value -> CronVerdict): (Outcome, seq<Row>) {
    var store := View(log);
    match call.op
    case Create(req) =>
      var outcome := CreateOutcome(store, req, cron);
      (outcome, if outcome.Done? then log + [CreateRow(call.ts, req)] else log)
    case Update(rid, req) =>
      var outcome := UpdateOutcome(store, rid, req, cron);
      (outcome, if outcome.Done? then log + [UpdateRow(call.ts, store[rid], rid, req)] else log)
    case Delete(rid) =>
      if Live(store, rid) then (Done(rid), log + [DeleteRow(call.ts, store[rid], rid)]) else (NotFound, log)
  }

  /** The same request on a plain map, where each id names its own spec. */
  function PlainStep(store: map<string, Spec>, op: Op, cron: Value -> CronVerdict): (Outcome, map<string, Spec>) {
    match op
    case Create(req) =>
      var outcome := CreateOutcome(store, req, cron);
      (outcome, if outcome.Done? then store[outcome.rid := CreatedSpec(req)] else store)
    case Update(rid, req) =>
      var outcome := UpdateOutcome(store, rid, req, cron);
      (outcome, if outcome.Done? then store[rid := UpdatedSpec(store[rid], rid, req)] else store)
    case Delete(rid) =>
      if Live(store, rid) then (Done(rid), store[rid := DeletedSpec(store[rid], rid)]) else (NotFound, store)
  }

  function LogRun(log: seq<Row>, calls: seq<Call>, cron: Value -> CronVerdict): (seq<Outcome>, seq<Row>) {
    if calls == [] then ([], log)
    else
      var (outcomes, log') := LogRun(log, calls[..|calls| - 1], cron);
      var (outcome, log'') := LogStep(log', calls[|calls| - 1], cron);
      (outcomes + [outcome], log'')
  }

  function PlainRun(store: map<string, Spec>, calls: seq<Call>, cron: Value -> CronVerdict):
    (seq<Outcome>, map<string, Spec>)
  {
    if calls == [] then ([], store)
    else
      var (outcomes, store') := PlainRun(store, calls[..|calls| - 1], cron);
      var (outcome, store'') := PlainStep(store', calls[|calls| - 1].op, cron);
      (outcomes + [outcome], store'')
  }

  lemma BindTidy(store: map<string, Spec>, rid: string, spec: Spec)
    requires TidyStore(store) && Tidy(rid, spec)
    ensures TidyStore(store[rid := spec])
  {
  }

  lemma CreateStepRefines(log: seq<Row>, ts: int, req: Request, cron: Value -> CronVerdict)
    requires TidyStore(View(log)) && TidyOp(Create(req))
    ensures var (outcome, log') := LogStep(log, Call(ts, Create(req)), cron);
      (outcome, View(log')) == PlainStep(View(log), Create(req), cron) && TidyStore(View(log'))
  {
    var outcome := CreateOutcome(View(log), req, cron);
    if outcome.Done? {
      CreateRefines(log, req, cron, ts);
      BindTidy(View(log), outcome.rid, CreatedSpec(req));
    }
  }

  lemma UpdateStepRefines(log: seq<Row>, ts: int, rid: string, req: Request, cron: Value -> CronVerdict)
    requires TidyStore(View(log)) && TidyOp(Update(rid, req))
    ensures var (outcome, log') := LogStep(log, Call(ts, Update(rid, req)), cron);
      (outcome, View(log')) == PlainStep(View(log), Update(rid, req), cron) && TidyStore(View(log'))
  {
    if UpdateOutcome(View(log), rid, req, cron).Done? {
      UpdateRefines(log, rid, req, ts);
      BindTidy(View(log), rid, UpdatedSpec(View(log)[rid], rid, req));
    }
  }

  lemma DeleteStepRefines(log: seq<Row>, ts: int, rid: string, cron: Value -> CronVerdict)
    requires TidyStore(View(log))
    ensures var (outcome, log') := LogStep(log, Call(ts, Delete(rid)), cron);
      (outcome, View(log')) == PlainStep(View(log), Delete(rid), cron) && TidyStore(View(log'))
  {
    if Live(View(log), rid) {
      DeleteRefines(log, rid, ts);
      BindTidy(View(log), rid, DeletedSpec(View(log)[rid], rid));
    }
  }

  lemma StepRefines(log: seq<Row>, call: Call, cron: Value -> CronVerdict)
    requires TidyStore(View(log)) && TidyOp(call.op)
    ensures var (outcome, log') := LogStep(log, call, cron);
      (outcome, View(log')) == PlainStep(View(log), call.op, cron) && TidyStore(View(log'))
  {
    match call.op
    case Create(req) => CreateStepRefines(log, call.ts, req, cron);
    case Update(rid, req) => UpdateStepRefines(log, call.ts, rid, req, cron);
    case Delete(rid) => DeleteStepRefines(log, call.ts, rid, cron);
  }

  /** Over every run of one-line requests that name storable ids, the log answers each one as the plain map does and
      stands for that map. */
  lemma {:induction false} PlainRunRefines(calls: seq<Call>, cron: Value -> CronVerdict)
    requires forall call :: call in calls ==> TidyOp(call.op)
    ensures var (outcomes, log) := LogRun([], calls, cron);
      (outcomes, View(log)) == PlainRun(map[], calls, cron) && TidyStore(View(log))
    decreases |calls|
  {
    if calls != [] {
      var init, last := calls[..|calls| - 1], calls[|calls| - 1];
      PlainRunRefines(init, cron);
      assert last in calls;
      StepRefines(LogRun([], init, cron).1, last, cron);
    }
  }

  // ---- Whole runs of whatever requests ----

  /** Writing a spec binds the id its tag carries, which is the `id` field printed; a blank one binds nothing. */
  function WriteTo(store: map<string, Spec>, meta: Meta, body: string, workspace: Value): map<string, Spec> {
    var rid := PyStr(Field(meta, "id", Str("")));
    if rid == "" then store else store[rid := Written(meta, body, workspace)]
  }

  function StoreStep(store: map<string, Spec>, op: Op, cron: Value -> CronVerdict): (Outcome, map<string, Spec>) {
    match op
    case Create(req) =>
      var outcome := CreateOutcome(store, req, cron);
      if !outcome.Done? then (outcome, store)
      else
        var meta := CreatedMeta(req);
        (outcome, WriteTo(store, meta, PromptOf(req), Field(meta, "workspace", Str(""))))
    case Update(rid, req) =>
      var outcome := UpdateOutcome(store, rid, req, cron);
      if !outcome.Done? then (outcome, store)
      else
        var spec := store[rid];
        (outcome,
         WriteTo(store, UpdatedMeta(spec, rid, req), UpdatedBody(spec, req), UpdatedWorkspace(spec, rid, req)))
    case Delete(rid) =>
      if !Live(store, rid) then (NotFound, store)
      else (Done(rid), WriteTo(store, DeletedMeta(store[rid], rid), "", store[rid].workspace))
  }

  function StoreRun(store: map<string, Spec>, calls: seq<Call>, cron: Value -> CronVerdict):
    (seq<Outcome>, map<string, Spec>)
  {
    if calls == [] then ([], store)
    else
      var (outcomes, store') := StoreRun(store, calls[..|calls| - 1], cron);
      var (outcome, store'') := StoreStep(store', calls[|calls| - 1].op, cron);
      (outcomes + [outcome], store'')
  }

  /** No spec that reads back holds a line break outside its body. */
  ghost predicate LinesOnly(store: map<string, Spec>) {
    forall rid :: rid in store ==> AllOneLine(store[rid].meta)
  }

  lemma WriteRebinds(log: seq<Row>, ts: int, meta: Meta, body: string, workspace: Value)
    ensures View(log + [SpecRow(ts, meta, body, workspace)]) == WriteTo(View(log), meta, body, workspace)
    ensures LinesOnly(View(log)) ==> LinesOnly(WriteTo(View(log), meta, body, workspace))
  {
    var row := SpecRow(ts, meta, body, workspace);
    WriteReads(ts, meta, body, workspace);
    ParsedOneLine(RenderFrontmatter(meta, body));
    if RoutineId(row) == "" {
      assert (log + [row])[..|log|] == log;
    } else {
      ViewAppend(log, row);
    }
  }

  lemma AnyStepRefines(log: seq<Row>, call: Call, cron: Value -> CronVerdict)
    requires LinesOnly(View(log))
    ensures var (outcome, log') := LogStep(log, call, cron);
      (outcome, View(log')) == StoreStep(View(log), call.op, cron) && LinesOnly(View(log'))
  {
    var store := View(log);
    match call.op
    case Create(req) =>
      if CreateOutcome(store, req, cron).Done? {
        var meta := CreatedMeta(req);
        WriteRebinds(log, call.ts, meta, PromptOf(req), Field(meta, "workspace", Str("")));
      }
    case Update(rid, req) =>
      if UpdateOutcome(store, rid, req, cron).Done? {
        var spec := store[rid];
        WriteRebinds(log, call.ts, UpdatedMeta(spec, rid, req), UpdatedBody(spec, req),
                     UpdatedWorkspace(spec, rid, req));
      }
    case Delete(rid) =>
      if Live(store, rid) {
        WriteRebinds(log, call.ts, DeletedMeta(store[rid], rid), "", store[rid].workspace);
      }
  }

  /** Over every run of requests, whatever ids and values they carry, the log answers each one as a map does that each
      write rebinds at the id its row carries, and stands for that map; no field that reads back holds a line break. */
  lemma {:induction false} RunRefines(calls: seq<Call>, cron: Value -> CronVerdict)
    ensures var (outcomes, log) := LogRun([], calls, cron);
      (outcomes, View(log)) == StoreRun(map[], calls, cron) && LinesOnly(View(log))
    decreases |calls|
  {
    if calls != [] {
      var init, last := calls[..|calls| - 1], calls[|calls| - 1];
      RunRefines(init, cron);
      AnyStepRefines(LogRun([], init, cron).1, last, cron);
    }
  }

  lemma CreatedOneLiners(req: Request)
    requires TidyRequest(req) && Trimmed(req.fields, "id").Some? && Trimmed(req.fields, "name").Some?
    requires Identified(req).0 != ""
    ensures var meta := CreatedMeta(req);
      && OneLiners(meta) && "id" in Identified(req).1 && "id" in meta
      && meta["id"] == Identified(req).1["id"] && meta["id"].Str? && meta["id"].s != ""
  {
    IdentifiedId(req);
    IdentifiedOneLiners(req);
    MergedOneLiners(Identified(req).1, map[]);
    MergedId(Identified(req).1, map[]);
    DefaultsFacts(Merged(Identified(req).1, map[]));
  }

  /** A create whose fields hold no line break writes the closed form under the id as it was sent, padding included. */
  lemma CreateWrites(store: map<string, Spec>, req: Request, cron: Value -> CronVerdict)
    requires CreateOutcome(store, req, cron).Done? && TidyRequest(req)
    ensures "id" in Identified(req).1 && Identified(req).1["id"].Str?
    ensures StoreStep(store, Create(req), cron).1 == store[Identified(req).1["id"].s := CreatedSpec(req)]
  {
    CreatedOneLiners(req);
    var meta := CreatedMeta(req);
    WrittenIsStored(meta, PromptOf(req), Field(meta, "workspace", Str("")));
  }

  /** Such an update writes the closed form under the id it names. */
  lemma UpdateWrites(store: map<string, Spec>, rid: string, req: Request, cron: Value -> CronVerdict)
    requires LinesOnly(store) && TidyRequest(req) && rid != "" && SingleLine(rid)
    requires UpdateOutcome(store, rid, req, cron).Done?
    ensures StoreStep(store, Update(rid, req), cron).1 == store[rid := UpdatedSpec(store[rid], rid, req)]
  {
    var spec := store[rid];
    var fields, meta := req.fields["id" := Str(rid)], UpdatedMeta(spec, rid, req);
    assert OneLiners(fields) && OneLiners(spec.meta);
    MergedOneLiners(fields, spec.meta);
    MergedId(fields, spec.meta);
    WrittenIsStored(meta, UpdatedBody(spec, req), UpdatedWorkspace(spec, rid, req));
  }

  /** A delete writes the tombstone under the id that the spec read back carries, or else the one it names. */
  lemma DeleteWrites(store: map<string, Spec>, rid: string, cron: Value -> CronVerdict)
    requires LinesOnly(store) && Live(store, rid) && SingleLine(rid)
    ensures var target := PyStr(Field(store[rid].meta, "id", Str(rid)));
      StoreStep(store, Delete(rid), cron).1
      == if target == "" then store else store[target := DeletedSpec(store[rid], rid)]
  {
    var meta := DeletedMeta(store[rid], rid);
    assert Field(meta, "id", Str("")) == Field(store[rid].meta, "id", Str(rid));
    WrittenIsStored(meta, "", store[rid].workspace);
  }

  /** After a delete succeeds, updating or deleting the id again fails and creating it again does not find it taken. */
  lemma DeletedIdIsFree(store: map<string, Spec>, rid: string, req: Request, cron: Value -> CronVerdict)
    requires TidyStore(store) && Live(store, rid)
    ensures var store' := PlainStep(store, Delete(rid), cron).1;
      && PlainStep(store', Delete(rid), cron) == (NotFound, store')
      && PlainStep(store', Update(rid, req), cron) == (NotFound, store')
      && (TidyId(req) && Identified(req).0 == rid ==> CreateOutcome(store', req, cron) != AlreadyExists)
      && LiveSpecs(store') == LiveSpecs(store) - {rid}
  {
    var spec := DeletedSpec(store[rid], rid);
    var store' := store[rid := spec];
    assert Tidy(rid, store[rid]);
    TombstoneIsDeleted(store[rid], rid);
    BindDead(store, rid, spec);
    assert PlainStep(store, Delete(rid), cron) == (Done(rid), store');
    DeadIdAnswers(store', rid, req, cron);
  }

  lemma DeadIdAnswers(store: map<string, Spec>, rid: string, req: Request, cron: Value -> CronVerdict)
    requires !Live(store, rid)
    ensures PlainStep(store, Delete(rid), cron) == (NotFound, store)
    ensures PlainStep(store, Update(rid, req), cron) == (NotFound, store)
    ensures TidyId(req) && Identified(req).0 == rid ==> CreateOutcome(store, req, cron) != AlreadyExists
  {
  }

  lemma BindDead(store: map<string, Spec>, rid: string, spec: Spec)
    requires Deleted(spec)
    ensures LiveSpecs(store[rid := spec]) == LiveSpecs(store) - {rid} && !Live(store[rid := spec], rid)
  {
  }

  // ---- A routine that cannot be deleted ----

  lemma CreatedLive(log: seq<Row>, ts: int, req: Request, rid: string, cron: Value -> CronVerdict)
    requires CreateOutcome(View(log), req, cron).Done? && TidyRequest(req)
    requires "id" in req.fields && req.fields["id"] == Str(rid) && Text.Strip(rid) == rid != ""
    requires !Truthy(Field(req.fields, "deleted", Null))
    ensures var log' := log + [CreateRow(ts, req)];
      && Live(View(log'), rid) && OneLiners(View(log')[rid].meta)
      && "id" in View(log')[rid].meta && View(log')[rid].meta["id"] == Reread(Str(rid))
  {
    PaddedIdentified(req);
    CreatedOneLiners(req);
    CreatedFlag(req);
    var meta := CreatedMeta(req);
    WrittenUnderId(log, rid, meta, PromptOf(req), Field(meta, "workspace", Str("")), ts);
  }

  lemma CreatedFlag(req: Request)
    requires Trimmed(req.fields, "id").Some? && Trimmed(req.fields, "name").Some?
    requires TidyRequest(req) && Identified(req).0 != ""
    ensures var meta := CreatedMeta(req);
      "deleted" in meta && meta["deleted"] == Bool(Truthy(Field(req.fields, "deleted", Null)))
  {
    var fields := Identified(req).1;
    IdentifiedId(req);
    IdentifiedOneLiners(req);
    MergedOneLiners(fields, map[]);
    MergedId(fields, map[]);
    MergedDeleted(fields);
    DefaultsFacts(Merged(fields, map[]));
    assert Field(fields, "deleted", Null) == Field(req.fields, "deleted", Null);
  }

  /** A create and then a delete under one id: unless the id is addressable, the routine is live afterwards and the id
      that reads back is tombstoned. */
  lemma DeleteMisses(log: seq<Row>, req: Request, rid: string, cron: Value -> CronVerdict, ts: int, later: int)
    requires CreateOutcome(View(log), req, cron).Done? && TidyRequest(req)
    requires "id" in req.fields && req.fields["id"] == Str(rid) && Text.Strip(rid) == rid != ""
    requires !Truthy(Field(req.fields, "deleted", Null)) && !Addressable(rid) && ReadId(rid) != ""
    ensures var log1 := LogStep(log, Call(ts, Create(req)), cron).1;
      var (outcome, log2) := LogStep(log1, Call(later, Delete(rid)), cron);
      && outcome == Done(rid) && Live(View(log2), rid)
      && ReadId(rid) in View(log2) && Deleted(View(log2)[ReadId(rid)])
  {
    var log1 := log + [CreateRow(ts, req)];
    CreatedLive(log, ts, req, rid, cron);
    DeleteHitsIff(log1, rid, later);
    TombstoneIsDeleted(View(log1)[rid], rid);
  }

  /** Creating the routine `007` and deleting it leaves it live, and `7` tombstoned. */
  lemma SevenSurvives(log: seq<Row>, req: Request, rid: string, cron: Value -> CronVerdict, ts: int, later: int)
    requires rid == "007" && "id" in req.fields && req.fields["id"] == Str(rid)
    requires CreateOutcome(View(log), req, cron).Done? && TidyRequest(req)
    requires !Truthy(Field(req.fields, "deleted", Null))
    ensures var log1 := LogStep(log, Call(ts, Create(req)), cron).1;
      var (outcome, log2) := LogStep(log1, Call(later, Delete(rid)), cron);
      outcome == Done(rid) && Live(View(log2), rid) && "7" in View(log2) && Deleted(View(log2)["7"])
  {
    SevenIsHit(rid);
    Text.StripTight(rid);
    DeleteMisses(log, req, rid, cron, ts, later);
  }

  // ---- Where the ids go wrong ----

  /** A request whose id has edge whitespace is checked under the stripped id and stored under the padded one:
      it leaves the stripped id free, so the same create succeeds again. */
  lemma PaddedIdStaysFree(log: seq<Row>, req: Request, cron: Value -> CronVerdict, ts: int)
    requires CreateOutcome(View(log), req, cron).Done?
    requires "id" in req.fields && req.fields["id"].Str? && Text.Strip(req.fields["id"].s) != req.fields["id"].s
    requires Text.Strip(req.fields["id"].s) != ""
    ensures CreateOutcome(View(log + [CreateRow(ts, req)]), req, cron) == CreateOutcome(View(log), req, cron)
  {
    PaddedIdentified(req);
    var rid := Text.Strip(req.fields["id"].s);
    PaddedTag(View(log), req, cron, ts, rid);
    RowElsewhere(log, CreateRow(ts, req), rid);
    AdmittedIf(View(log), View(log + [CreateRow(ts, req)]), req, cron, rid);
  }

  lemma PaddedTag(store: map<string, Spec>, req: Request, cron: Value -> CronVerdict, ts: int, rid: string)
    requires CreateOutcome(store, req, cron).Done? && Identified(req) == (rid, req.fields)
    requires "id" in req.fields && req.fields["id"] != Str(rid)
    ensures RoutineId(CreateRow(ts, req)) != rid
  {
    DoneId(store, req, cron);
    CreateTagIff(store, req, cron, ts);
  }

  lemma DoneId(store: map<string, Spec>, req: Request, cron: Value -> CronVerdict)
    requires CreateOutcome(store, req, cron).Done?
    ensures CreateOutcome(store, req, cron).rid == Identified(req).0
  {
  }

  lemma PaddedIdentified(req: Request)
    requires "id" in req.fields && req.fields["id"].Str? && Text.Strip(req.fields["id"].s) != ""
    requires Trimmed(req.fields, "name").Some?
    ensures Trimmed(req.fields, "id") == Some(Text.Strip(req.fields["id"].s))
    ensures Identified(req) == (Text.Strip(req.fields["id"].s), req.fields)
  {
    assert req.fields["id"].s != "";
  }

  lemma RowElsewhere(log: seq<Row>, row: Row, rid: string)
    requires RoutineId(row) != rid
    ensures rid in View(log + [row]) <==> rid in View(log)
    ensures rid in View(log) ==> View(log + [row])[rid] == View(log)[rid]
  {
    assert (log + [row])[..|log|] == log;
  }

  /** A create looks at nothing but whether its id is live. */
  lemma AdmittedIf(before: map<string, Spec>, after: map<string, Spec>, req: Request, cron: Value -> CronVerdict,
                   rid: string)
    requires CreateOutcome(before, req, cron).Done? && Identified(req).0 == rid
    requires Live(after, rid) <==> Live(before, rid)
    ensures CreateOutcome(after, req, cron) == CreateOutcome(before, req, cron)
  {
  }
}
