/** What a stored routine reads back as, field by field, in terms of the request that wrote it. */
module RoutinesMeaning {
  import opened Sequences
  import opened Frontmatter
  import opened FrontmatterRoundTrip
  import opened Routines
  import opened RoutinesRuns
  import Text

  // ---- One field ----

  predicate Known(k: string) {
    k in {"id", "name", "schedule", "interval_minutes", "enabled", "workspace", "host", "permission_mode",
          "helper_auto_approve", "single_fire", "deleted"}
  }

  predicate IsFlag(k: string) { k in {"enabled", "single_fire", "deleted", "helper_auto_approve"} }

  /** A flag is stored as a boolean, an interval as an integer; None where nothing is stored. */
  function Kept(k: string, v: Value): Option<Value> {
    if IsFlag(k) then Some(Bool(v !in {Bool(false), Int(0), Str(""), Null}))
    else if v == Null then None
    else if k == "interval_minutes" then IntOf(v)
    else Some(v)
  }

  /** The field reads as what was kept of the value sent, and is absent when nothing was. */
  ghost predicate ReadsAs(meta: Meta, k: string, sent: Option<Value>) {
    var kept := if sent.None? then None else Kept(k, sent.value);
    (k in meta <==> kept.Some?) && (kept.Some? ==> meta[k] == Reread(kept.value))
  }

  lemma KnownKeys(k: string)
    ensures k in SPEC_KEYS <==> Known(k)
    ensures k in FLAG_KEYS <==> IsFlag(k)
  {
    assert SPEC_KEYS == ["id", "name", "schedule", "interval_minutes", "enabled", "workspace", "host",
                         "permission_mode", "helper_auto_approve", "single_fire", "deleted"];
    KeysInTwo(k);
  }

  lemma KeysInTwo(k: string)
    ensures Known(k) <==>
      (k in ["id", "name", "schedule", "interval_minutes", "enabled", "workspace", "host", "permission_mode",
             "helper_auto_approve", "single_fire", "deleted"])
    ensures k in FLAG_KEYS <==> IsFlag(k)
  {
    var ks := ["id", "name", "schedule", "interval_minutes", "enabled", "workspace", "host", "permission_mode",
               "helper_auto_approve", "single_fire", "deleted"];
    assert ks[0] == "id" && ks[1] == "name" && ks[2] == "schedule" && ks[3] == "interval_minutes";
    assert ks[4] == "enabled" && ks[5] == "workspace" && ks[6] == "host" && ks[7] == "permission_mode";
    assert ks[8] == "helper_auto_approve" && ks[9] == "single_fire" && ks[10] == "deleted";
    assert FLAG_KEYS[0] == "enabled" && FLAG_KEYS[1] == "single_fire" && FLAG_KEYS[2] == "deleted";
    assert FLAG_KEYS[3] == "helper_auto_approve";
  }

  lemma CoercedIsKept(k: string, v: Value)
    requires Known(k)
    ensures Coerced(k, v).Some? && Coerced(k, v).value != Null <==> Kept(k, v).Some?
    ensures Kept(k, v).Some? ==> Coerced(k, v) == Kept(k, v)
  {
    KnownKeys(k);
    assert Truthy(v) <==> v !in {Bool(false), Int(0), Str(""), Null};
    assert "interval_minutes" !in FLAG_KEYS by { KnownKeys("interval_minutes"); assert "interval_minutes"[0] == 'i'; }
  }

  /** The value sent for a field, or else the earlier one. */
  function Sent(fields: Meta, existing: Meta, k: string): Option<Value> {
    if k in fields then Some(fields[k]) else if k in existing then Some(existing[k]) else None
  }

  lemma MergedAt(fields: Meta, existing: Meta, k: string)
    requires k in SPEC_KEYS
    ensures var m, sent := Merged(fields, existing), Sent(fields, existing, k);
      && (k in m <==> sent.Some? && Coerced(k, sent.value).Some?)
      && (k in m ==> sent.Some? && Some(m[k]) == Coerced(k, sent.value))
  {
  }

  lemma ReadBackAt(m: Meta, k: string)
    requires k in SPEC_KEYS
    ensures k in ReadBack(m) <==> k in m && m[k] != Null
    ensures k in m && m[k] != Null ==> ReadBack(m)[k] == Reread(m[k])
  {
  }

  lemma MergedReads(fields: Meta, existing: Meta, k: string)
    requires Known(k)
    ensures ReadsAs(ReadBack(Merged(fields, existing)), k, Sent(fields, existing, k))
  {
    KnownKeys(k);
    MergedAt(fields, existing, k);
    ReadBackAt(Merged(fields, existing), k);
    var sent := Sent(fields, existing, k);
    if sent.Some? { CoercedIsKept(k, sent.value); }
  }

  // ---- Update ----

  /** Main result on update: each known field reads as what the request sent for it, or else as what was kept of its
      earlier value; the id is the one named. */
  lemma UpdateReads(spec: Spec, rid: string, req: Request, k: string)
    requires Known(k)
    ensures ReadsAs(UpdatedSpec(spec, rid, req).meta, k,
                    if k == "id" then Some(Str(rid)) else Sent(req.fields, spec.meta, k))
  {
    MergedReads(req.fields["id" := Str(rid)], spec.meta, k);
  }

  /** An update moves the routine to the workspace it sends, and leaves it where it was when it sends a blank one; a
      prompt is stored without leading newlines, and the sections, if there are any, in its place. */
  lemma UpdatePlaces(spec: Spec, rid: string, req: Request)
    ensures var stored := UpdatedSpec(spec, rid, req);
      && (req.prompt.None? ==> stored.body == Text.DropNewlines(spec.body))
      && (req.prompt.Some? && req.sections.None? ==> stored.body == Text.DropNewlines(req.prompt.value))
      && (forall s :: s != "" && "workspace" in req.fields && req.fields["workspace"] == Str(s) ==>
            stored.workspace == Str(s))
      && (forall s ::
            (s != "" && "workspace" in req.fields && req.fields["workspace"] in {Str(""), Null}
             && spec.workspace == Str(s)) ==>
              stored.workspace == Str(s))
  {
    KnownKeys("workspace");
    assert "workspace" !in FLAG_KEYS && "workspace" != "interval_minutes" by { assert "workspace"[0] == 'w'; }
    assert "workspace"[0] != "id"[0];
  }

  // ---- Create ----

  function DefaultOf(k: string): Option<Value> {
    if k == "enabled" then Some(Bool(true))
    else if k == "permission_mode" then Some(Str("auto"))
    else if k == "deleted" then Some(Bool(false))
    else None
  }

  lemma CreatedField(fields: Meta, k: string)
    requires Known(k)
    ensures ReadsAs(ReadBack(WithDefaults(Merged(fields, map[]))), k,
                    if k in fields then Some(fields[k]) else DefaultOf(k))
  {
    var m := Merged(fields, map[]);
    MergedReads(fields, map[], k);
    DefaultsRead(m, k);
    KnownKeys(k);
    assert k in ReadBack(m) <==> k in m && m[k] != Null;
    if k in fields {
      if DefaultOf(k).Some? { DefaultsAreKept(fields, k); }
    } else {
      assert k !in m;
      if DefaultOf(k).Some? { DefaultKept(k); }
    }
  }

  lemma DefaultKept(k: string)
    requires DefaultOf(k).Some?
    ensures Kept(k, DefaultOf(k).value) == DefaultOf(k)
  {
    assert "permission_mode"[0] == 'p' && "interval_minutes"[0] == 'i' && "enabled"[0] == 'e' && "single_fire"[0] == 's'
      && "deleted"[0] == 'd' && "helper_auto_approve"[0] == 'h';
  }

  lemma IdentifiedField(req: Request, k: string)
    requires Trimmed(req.fields, "id").Some? && Trimmed(req.fields, "name").Some?
    requires Trimmed(req.fields, "name").value != ""
    ensures var fields := Identified(req).1;
      if k == "id" && Trimmed(req.fields, "id").value == ""
      then k in fields && fields[k] == Str(Slugify(Trimmed(req.fields, "name").value))
      else (k in fields <==> k in req.fields) && (k in fields ==> fields[k] == req.fields[k])
  {
  }

  /** Main result on create: each known field reads as what the request sent for it, or else as its default: enabled,
      not deleted, permission mode `auto`; a blank id is the slug of the name. */
  lemma CreateReads(req: Request, k: string)
    requires Trimmed(req.fields, "id").Some? && Trimmed(req.fields, "name").Some? && Known(k)
    requires Trimmed(req.fields, "name").value != ""
    ensures ReadsAs(CreatedSpec(req).meta, k,
                    if k == "id" && Trimmed(req.fields, "id").value == ""
                    then Some(Str(Slugify(Trimmed(req.fields, "name").value)))
                    else if k in req.fields then Some(req.fields[k]) else DefaultOf(k))
  {
    IdentifiedField(req, k);
    CreatedField(Identified(req).1, k);
  }

  lemma DefaultsAreKept(fields: Meta, k: string)
    requires Known(k) && DefaultOf(k).Some? && k in fields
    ensures k in Merged(fields, map[])
  {
    KnownKeys(k);
    assert k != "interval_minutes" by {
      assert "permission_mode"[0] == 'p' && "interval_minutes"[0] == 'i' && "enabled"[0] == 'e' && "deleted"[0] == 'd';
    }
  }

  lemma DefaultsAt(meta: Meta, k: string)
    ensures k in WithDefaults(meta) <==> k in meta || DefaultOf(k).Some?
    ensures k in meta ==> WithDefaults(meta)[k] == meta[k]
    ensures k !in meta && DefaultOf(k).Some? ==> WithDefaults(meta)[k] == DefaultOf(k).value
  {
    assert "enabled"[0] == 'e' && "permission_mode"[0] == 'p' && "deleted"[0] == 'd';
  }

  lemma DefaultsRead(meta: Meta, k: string)
    requires Known(k)
    ensures k in ReadBack(WithDefaults(meta)) <==>
      (k in meta && meta[k] != Null) || (k !in meta && DefaultOf(k).Some?)
    ensures k in meta && meta[k] != Null ==> ReadBack(WithDefaults(meta))[k] == Reread(meta[k])
    ensures k !in meta && DefaultOf(k).Some? ==> ReadBack(WithDefaults(meta))[k] == Reread(DefaultOf(k).value)
  {
    KnownKeys(k);
    DefaultsAt(meta, k);
    ReadBackAt(WithDefaults(meta), k);
  }

  /** A create puts the routine into the workspace it sends, or into none; without sections its body is the prompt
      without leading newlines, or empty. */
  lemma CreatePlaces(req: Request)
    requires Trimmed(req.fields, "id").Some? && Trimmed(req.fields, "name").Some?
    ensures var stored := CreatedSpec(req);
      && (req.sections.None? && req.prompt.Some? ==> stored.body == Text.DropNewlines(req.prompt.value))
      && (req.sections.None? && req.prompt.None? ==> stored.body == "")
      && (forall s :: "workspace" in req.fields && req.fields["workspace"] == Str(s) && s != "" ==>
            stored.workspace == Str(s))
      && ("workspace" !in req.fields ==> stored.workspace == Str(""))
  {
    KnownKeys("workspace");
    assert "workspace" !in FLAG_KEYS && "workspace" != "interval_minutes" && "workspace" != "enabled"
      && "workspace" != "permission_mode" && "workspace" != "deleted" && "workspace" != "id" by {
      assert "workspace"[0] == 'w' && "permission_mode"[0] == 'p' && "enabled"[0] == 'e' && "deleted"[0] == 'd'
        && "id"[0] == 'i' && "interval_minutes"[0] == 'i';
    }
  }

  // ---- Where the sections stand ----

  lemma OccursStill(s: string, more: string, x: string, at: nat)
    requires Text.OccursAt(s, x, at)
    ensures Text.OccursAt(s + more, x, at)
  {
    assert (s + more)[at..at + |x|] == s[at..at + |x|];
  }

  /** `x` stands on a line of its own after `s`. */
  lemma OccursNext(s: string, x: string)
    ensures Text.OccursAt(s + "\n" + x, x, |s| + 1) && (s + "\n" + x)[|s|] == '\n'
  {
    assert (s + "\n" + x)[|s| + 1..] == x;
  }

  /** One block after another, a line between each two. */
  lemma FourOccur(a: string, b: string, c: string, d: string)
    ensures var two := a + "\n" + b;
      var three := two + "\n" + c;
      var body := three + "\n" + d;
      && Text.OccursAt(body, a, 0) && Text.OccursAt(body, b, |a| + 1)
      && Text.OccursAt(body, c, |two| + 1) && Text.OccursAt(body, d, |three| + 1)
      && body[|a|] == body[|two|] == body[|three|] == '\n'
  {
    var two := a + "\n" + b;
    var three := two + "\n" + c;
    var body := three + "\n" + d;
    OccursNext(a, b);
    OccursNext(two, c);
    OccursNext(three, d);
    assert two[..|a|] == a;
    OccursTwice(two, "\n", c, "\n", d, a, 0);
    OccursTwice(two, "\n", c, "\n", d, b, |a| + 1);
    OccursStill(three, "\n", c, |two| + 1);
    OccursStill(three + "\n", d, c, |two| + 1);
  }

  lemma OccursTwice(s: string, gap1: string, c: string, gap2: string, d: string, x: string, at: nat)
    requires Text.OccursAt(s, x, at)
    ensures Text.OccursAt(s + gap1 + c + gap2 + d, x, at)
  {
    OccursStill(s, gap1, x, at);
    OccursStill(s + gap1, c, x, at);
    OccursStill(s + gap1 + c, gap2, x, at);
    OccursStill(s + gap1 + c + gap2, d, x, at);
  }

  /** Each section stands, stripped, under its own heading, one blank line after the one before; nothing else is in the
      body. */
  ghost predicate StandIn(body: string, s: Sections) {
    var i := |"# Purpose\n" + Text.Strip(s.purpose) + "\n"| + 1;
    var j := i + |"# Needs\n" + Text.Strip(s.needs) + "\n"| + 1;
    var k := j + |"# Steps\n" + Text.Strip(s.steps) + "\n"| + 1;
    && Text.OccursAt(body, "# Purpose\n" + Text.Strip(s.purpose) + "\n", 0)
    && Text.OccursAt(body, "# Needs\n" + Text.Strip(s.needs) + "\n", i)
    && Text.OccursAt(body, "# Steps\n" + Text.Strip(s.steps) + "\n", j)
    && Text.OccursAt(body, "# Ending\n" + Text.Strip(s.ending) + "\n", k)
    && |body| == k + |"# Ending\n" + Text.Strip(s.ending) + "\n"|
    && (forall at :: at in [i - 1, j - 1, k - 1] ==> 0 <= at < |body| && body[at] == '\n')
  }

  lemma ComposedStand(s: Sections)
    ensures StandIn(Compose(s), s)
  {
    FourOccur(Section("# Purpose\n", s.purpose), Section("# Needs\n", s.needs), Section("# Steps\n", s.steps),
              Section("# Ending\n", s.ending));
  }

  /** The sections of a request reach the stored body in the order purpose, needs, steps, ending: on create always, on
      update when a prompt comes along. */
  lemma SectionsStand(req: Request, spec: Spec, rid: string)
    requires req.sections.Some?
    ensures Trimmed(req.fields, "id").Some? && Trimmed(req.fields, "name").Some? ==>
      StandIn(CreatedSpec(req).body, req.sections.value)
    ensures req.prompt.Some? ==> StandIn(UpdatedSpec(spec, rid, req).body, req.sections.value)
  {
    ComposedIsSettled(req.sections.value);
    ComposedStand(req.sections.value);
  }

  // ---- Slugs ----

  /** The letters and digits of a text, in order. */
  function Letters(s: string): string {
    if s == "" then "" else (if IsSlugChar(s[0]) then [s[0]] else "") + Letters(s[1..])
  }

  lemma {:induction false} HyphenatedLetters(s: string, inRun: bool)
    ensures Letters(Hyphenate(s, inRun)) == Letters(s)
  {
    if s != "" {
      HyphenatedLetters(s[1..], !IsSlugChar(s[0]));
      var h := Hyphenate(s[1..], !IsSlugChar(s[0]));
      if IsSlugChar(s[0]) {
        assert ([s[0]] + h)[1..] == h;
      } else {
        assert ("-" + h)[1..] == h && "" + h == h;
      }
    }
  }

  lemma {:induction false} LettersConcat(a: string, b: string)
    ensures Letters(a + b) == Letters(a) + Letters(b)
  {
    if a == "" {
      assert a + b == b;
    } else {
      var first := if IsSlugChar(a[0]) then [a[0]] else "";
      assert (a + b)[1..] == a[1..] + b && (a + b)[0] == a[0];
      LettersConcat(a[1..], b);
      assert first + (Letters(a[1..]) + Letters(b)) == first + Letters(a[1..]) + Letters(b);
    }
  }

  lemma HyphenDropped(init: string)
    ensures Letters(init + "-") == Letters(init)
  {
    LettersConcat(init, "-");
  }

  lemma {:induction false} StrippedLetters(s: string)
    ensures Letters(Text.StripChar(s, '-')) == Letters(s)
    decreases |s|
  {
    if s != "" && s[0] == '-' {
      StrippedLetters(s[1..]);
    } else if s != "" && s[|s| - 1] == '-' {
      var init := s[..|s| - 1];
      StrippedLetters(init);
      HyphenDropped(init);
      assert s == init + "-";
    }
  }

  lemma {:induction false} DroppedLetters(s: string)
    ensures Letters(DropHyphens(s)) == Letters(s)
  {
    if s != "" && s[|s| - 1] == '-' {
      var init := s[..|s| - 1];
      DroppedLetters(init);
      HyphenDropped(init);
      assert s == init + "-";
    }
  }

  ghost predicate NoDoubles(s: string) { forall i :: 0 <= i < |s| - 1 ==> s[i] != '-' || s[i + 1] != '-' }

  lemma {:induction false} HyphenatedOnce(s: string, inRun: bool)
    ensures var h := Hyphenate(s, inRun);
      NoDoubles(h) && (inRun && h != "" ==> h[0] != '-')
  {
    if s != "" {
      HyphenatedOnce(s[1..], !IsSlugChar(s[0]));
      var rest := Hyphenate(s[1..], !IsSlugChar(s[0]));
      var first := if IsSlugChar(s[0]) then [s[0]] else if inRun then "" else "-";
      forall i | 0 <= i < |first + rest| - 1 ensures (first + rest)[i] != '-' || (first + rest)[i + 1] != '-' {
        if |first| == 0 || i > 0 { assert rest[i - |first|] != '-' || rest[i - |first| + 1] != '-'; }
      }
    }
  }

  lemma {:induction false} StrippedOnce(s: string)
    requires NoDoubles(s)
    ensures NoDoubles(Text.StripChar(s, '-'))
    decreases |s|
  {
    if s != "" && s[0] == '-' {
      forall i | 0 <= i < |s[1..]| - 1 ensures s[1..][i] != '-' || s[1..][i + 1] != '-' {
        assert s[i + 1] != '-' || s[i + 1 + 1] != '-';
      }
      StrippedOnce(s[1..]);
    } else if s != "" && s[|s| - 1] == '-' {
      StrippedOnce(s[..|s| - 1]);
    }
  }

  lemma {:induction false} DropsOne(s: string)
    requires NoDoubles(s)
    ensures DropHyphens(s) == s || DropHyphens(s) == s[..|s| - 1]
  {
    if s != "" && s[|s| - 1] == '-' {
      assert |s| > 1 ==> s[|s| - 2] != '-';
    }
  }

  /** A slug spells the lower-cased letters and digits of the name in order from the first one on, all of them unless
      the slug is 47 or 48 long, with never two hyphens in a row. */
  lemma SlugSpells(name: string)
    ensures Letters(Slugify(name)) <= Letters(Text.Lower(name))
    ensures |Slugify(name)| < 47 ==> Letters(Slugify(name)) == Letters(Text.Lower(name))
    ensures NoDoubles(Slugify(name))
  {
    var h := Hyphenate(Text.Lower(name), false);
    var s := Text.StripChar(h, '-');
    HyphenatedLetters(Text.Lower(name), false);
    HyphenatedOnce(Text.Lower(name), false);
    StrippedLetters(h);
    StrippedOnce(h);
    var cut := if |s| > SLUG_LENGTH then s[..SLUG_LENGTH] else s;
    DroppedLetters(cut);
    DropsOne(cut);
    assert s == cut + s[|cut|..];
    LettersConcat(cut, s[|cut|..]);
  }

  // ---- Intervals ----

  lemma Signed(sign: string, n: nat)
    requires sign == "-" || sign == "+"
    ensures var t, w := sign + Text.NatToString(n), Text.NatToString(n);
      && t != "" && t[0] == sign[0] && t[1..] == w && Text.IsDigits(t[1..]) && Text.ParseNat(t[1..]) == n
      && !Text.IsDigits(t)
  {
    var t, w := sign + Text.NatToString(n), Text.NatToString(n);
    Text.ParsePrintedNat(n);
    assert t[1..] == w && !Text.IsDigit(t[0]);
  }

  /** An interval reads as the integer it is or spells, signed or not, whitespace aside. */
  lemma IntervalReads(v: Value, n: nat)
    ensures v.Int? ==> IntOf(v) == Some(v)
    ensures v.Bool? ==> IntOf(v) == Some(Int(if v.b then 1 else 0))
    ensures v.Str? && Text.Strip(v.s) == Text.NatToString(n) ==> IntOf(v) == Some(Int(n))
    ensures v.Str? && Text.Strip(v.s) == "-" + Text.NatToString(n) ==> IntOf(v) == Some(Int(0 - n as int))
    ensures v.Str? && Text.Strip(v.s) == "+" + Text.NatToString(n) ==> IntOf(v) == Some(Int(n))
  {
    Text.ParsePrintedNat(n);
    Signed("-", n);
    Signed("+", n);
  }

  /** Anything else that is sent is dropped. */
  lemma NoInterval(s: string, i: nat)
    requires i < |Text.Strip(s)| && !Text.IsDigit(Text.Strip(s)[i])
    requires i > 0 || Text.Strip(s)[i] !in "+-" || |Text.Strip(s)| == 1
    ensures IntOf(Str(s)) == None
  {
    var t := Text.Strip(s);
    if i > 0 {
      assert t[1..][i - 1] == t[i];
    } else if |t| == 1 {
      assert t[1..] == "";
    }
  }

  // ---- Answers ----

  /** What a create answers, once the id asked for is known: it is taken if its latest spec is no tombstone, and only a
      free one has its schedule checked. */
  ghost predicate AnswersAs(outcome: Outcome, store: map<string, Spec>, rid: string, verdict: CronVerdict) {
    if rid == "" then outcome == MissingField
    else if rid in store && !Deleted(store[rid]) then outcome == AlreadyExists
    else match verdict
      case Valid => outcome == Done(rid)
      case Invalid => outcome == BadSchedule
      case Raises => outcome == Fault
  }

  /** A create needs a name; its id is the one sent, stripped, or else the slug of the stripped name. */
  lemma CreateAnswers(store: map<string, Spec>, req: Request, cron: Value -> CronVerdict, name: string, id: string)
    requires Field(req.fields, "name", Str("")) == Str(name) && Field(req.fields, "id", Str("")) == Str(id)
    ensures var outcome := CreateOutcome(store, req, cron);
      var verdict := cron(if "schedule" in req.fields then req.fields["schedule"] else Null);
      if Text.Strip(name) == "" then outcome == MissingField
      else AnswersAs(outcome, store, if Text.Strip(id) != "" then Text.Strip(id) else Slugify(Text.Strip(name)),
                     verdict)
  {
    assert Text.Strip("") == "";
    assert "schedule"[0] != "id"[0];
  }

  /** An update is not found unless the routine is live, and otherwise refused only for a schedule it sends. */
  lemma UpdateAnswers(store: map<string, Spec>, rid: string, req: Request, cron: Value -> CronVerdict)
    ensures var outcome := UpdateOutcome(store, rid, req, cron);
      && (outcome == NotFound <==> rid !in store || Deleted(store[rid]))
      && (outcome == Done(rid) <==>
            rid in store && !Deleted(store[rid])
            && ("schedule" in req.fields ==> cron(req.fields["schedule"]) == Valid))
      && (outcome == BadSchedule <==>
            rid in store && !Deleted(store[rid])
            && "schedule" in req.fields && cron(req.fields["schedule"]) == Invalid)
  {
  }

  // ---- Delete, and what is on schedule ----

  /** A tombstone is marked deleted and has no body; every other known field, and the workspace, reads as it did. */
  lemma DeleteReads(spec: Spec, rid: string, k: string)
    requires Known(k)
    ensures var stored := DeletedSpec(spec, rid);
      var was := if k in spec.meta then spec.meta[k] else if k == "id" then Str(rid) else Null;
      && stored.body == ""
      && (forall s :: s != "" && spec.workspace == Str(s) ==> stored.workspace == Str(s))
      && (if k == "deleted" then k in stored.meta && stored.meta[k] == Bool(true)
          else (k in stored.meta <==> was != Null) && (was != Null ==> stored.meta[k] == Reread(was)))
  {
    KnownKeys(k);
    KnownKeys("deleted");
    ReadBackAt(DeletedMeta(spec, rid), k);
    ValueSurvivesIff(Bool(true));
    assert "id"[0] != "deleted"[0];
  }

  /** A routine is on schedule unless `enabled` reads as something falsy or `schedule` does, or there is none. */
  lemma OnScheduleIff(spec: Spec)
    ensures OnSchedule(spec) <==>
      && ("enabled" in spec.meta ==> spec.meta["enabled"] !in {Bool(false), Int(0), Str(""), Null})
      && "schedule" in spec.meta && spec.meta["schedule"] !in {Bool(false), Int(0), Str(""), Null}
  {
    forall v: Value ensures Truthy(v) <==> v !in {Bool(false), Int(0), Str(""), Null} {}
  }
}
