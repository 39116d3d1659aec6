/** Request-body validation: the class-validator decorators of the two event
    DTOs, interpreted the way the global `ValidationPipe` (with `whitelist`
    and `forbidNonWhitelisted`) applies them. */
module Validation {
  import opened Wrappers
  import opened Runtime
  import opened Text

  /** A JSON property value, after class-transformer has run. */
  datatype Json = JNull | JString(s: string) | JOther

  /** A request body: property name to value; an absent property is `undefined`. */
  type Body = map<string, Json>

  /** The decorators the DTOs use. `SkipUndefined` stands for a
      `@ValidateIf(o => value !== undefined)` guard and is used only by the
      corrected partial DTO. */
  datatype Constraint = IsString | IsNotEmpty | MinLength(n: nat) | IsDateString | IsOptional | SkipUndefined

  /** The decorators stacked on one DTO property. */
  datatype PropertyRule = PropertyRule(name: string, constraints: seq<Constraint>)

  datatype Violation = NotWhitelisted(property: string) | Failed(property: string, constraint: Constraint)

  function Lookup(body: Body, name: string): Option<Json> {
    if name in body then Some(body[name]) else None
  }

  /** Whether one decorator accepts the value (`None` is `undefined`). */
  predicate Holds(p: Platform, c: Constraint, v: Option<Json>) {
    match c
    case IsString => v.Some? && v.value.JString?
    case IsNotEmpty => v.Some? && v.value != JNull && v.value != JString("")
    case MinLength(n) => v.Some? && v.value.JString? && MeasuredLength(v.value.s) >= n
    case IsDateString => v.Some? && v.value.JString? && p.isDateString(v.value.s)
    case IsOptional => true
    case SkipUndefined => true
  }

  /** `@IsOptional()` skips every check of an `undefined` or `null` value;
      `SkipUndefined` skips them for an `undefined` value only. */
  predicate Skipped(rule: PropertyRule, v: Option<Json>) {
    (IsOptional in rule.constraints && (v.None? || v == Some(JNull)))
    || (SkipUndefined in rule.constraints && v.None?)
  }

  function PropertyViolations(p: Platform, rule: PropertyRule, v: Option<Json>): set<Violation> {
    if Skipped(rule, v) then {}
    else set c | c in rule.constraints && !Holds(p, c, v) :: Failed(rule.name, c)
  }

  function RulesViolations(p: Platform, rules: seq<PropertyRule>, body: Body): set<Violation>
    decreases |rules|
  {
    if |rules| == 0 then {}
    else PropertyViolations(p, rules[0], Lookup(body, rules[0].name)) + RulesViolations(p, rules[1..], body)
  }

  function Names(rules: seq<PropertyRule>): set<string> {
    set i | 0 <= i < |rules| :: rules[i].name
  }

  /** Everything the pipe reports for `body`; the request is rejected with a
      400 exactly when this is non-empty. */
  function Validate(p: Platform, rules: seq<PropertyRule>, body: Body): set<Violation> {
    (set k | k in body.Keys && k !in Names(rules) :: NotWhitelisted(k)) + RulesViolations(p, rules, body)
  }

  /** The decorators of `CreateEventDto`. */
  const CreateEventRules: seq<PropertyRule> := [
    PropertyRule("title", [IsString, IsNotEmpty, MinLength(3)]),
    PropertyRule("description", [IsString, IsOptional]),
    PropertyRule("startTime", [IsDateString, IsNotEmpty]),
    PropertyRule("endTime", [IsDateString, IsNotEmpty]),
    PropertyRule("imageURL", [IsString, IsOptional]),
    PropertyRule("videoURL", [IsString, IsOptional])
  ]

  /** `PartialType` of `@nestjs/mapped-types`: the same properties, each made `@IsOptional()`. */
  function PartialType(rules: seq<PropertyRule>): (r: seq<PropertyRule>)
    ensures |r| == |rules|
    ensures forall i :: 0 <= i < |rules| ==> r[i].name == rules[i].name
    ensures forall i :: 0 <= i < |rules| ==>
      forall c :: c in r[i].constraints <==> c in rules[i].constraints || c == IsOptional
    decreases |rules|
  {
    if |rules| == 0 then []
    else [PropertyRule(rules[0].name, rules[0].constraints + [IsOptional])] + PartialType(rules[1..])
  }

  /** The decorators `UpdateEventDto` ends up with, as written. */
  const UpdateEventRulesAsWritten: seq<PropertyRule> := PartialType(CreateEventRules)

  /** A partial DTO that still refuses `null` for properties the full DTO requires:
      those only become skippable when `undefined`. */
  function StrictPartialType(rules: seq<PropertyRule>): (r: seq<PropertyRule>)
    ensures |r| == |rules|
    ensures forall i :: 0 <= i < |rules| ==> r[i].name == rules[i].name
    ensures forall i :: 0 <= i < |rules| ==>
      forall c :: c in r[i].constraints <==>
        c in rules[i].constraints || (c == SkipUndefined && IsOptional !in rules[i].constraints)
    decreases |rules|
  {
    if |rules| == 0 then []
    else
      var cs := rules[0].constraints;
      [PropertyRule(rules[0].name, if IsOptional in cs then cs else cs + [SkipUndefined])]
        + StrictPartialType(rules[1..])
  }

  /** The decorators of the corrected `UpdateEventDto`. */
  const UpdateEventRules: seq<PropertyRule> := StrictPartialType(CreateEventRules)

  const EventProperties: set<string> := {"title", "description", "startTime", "endTime", "imageURL", "videoURL"}

  /** A present string value. */
  predicate IsStr(body: Body, k: string) {
    k in body && body[k].JString?
  }

  /** An optional string property: absent, `null`, or a string. */
  predicate OptionalString(body: Body, k: string) {
    k !in body || body[k] == JNull || body[k].JString?
  }

  /** A required date property: a non-empty ISO 8601 string. */
  predicate DateProperty(p: Platform, body: Body, k: string) {
    IsStr(body, k) && body[k].s != "" && p.isDateString(body[k].s)
  }

  predicate TitleProperty(body: Body) {
    IsStr(body, "title") && MeasuredLength(body["title"].s) >= 3
  }

  /** What a valid creation body is: only declared properties, a title of at
      least 3 characters, two ISO 8601 times, and optional string fields.
      Nothing relates the start time to the end time. */
  predicate ValidCreateBody(p: Platform, body: Body) {
    && body.Keys <= EventProperties
    && TitleProperty(body)
    && OptionalString(body, "description")
    && DateProperty(p, body, "startTime")
    && DateProperty(p, body, "endTime")
    && OptionalString(body, "imageURL")
    && OptionalString(body, "videoURL")
  }

  /** Absent or null, or else the create rule holds. */
  predicate OrNull(body: Body, k: string, ok: bool) {
    k !in body || body[k] == JNull || ok
  }

  /** What the update DTO accepts as written: every property may be absent or
      `null`; a supplied non-null property must pass its create rule. */
  predicate ValidUpdateBodyAsWritten(p: Platform, body: Body) {
    && body.Keys <= EventProperties
    && OrNull(body, "title", TitleProperty(body))
    && OptionalString(body, "description")
    && OrNull(body, "startTime", DateProperty(p, body, "startTime"))
    && OrNull(body, "endTime", DateProperty(p, body, "endTime"))
    && OptionalString(body, "imageURL")
    && OptionalString(body, "videoURL")
  }

  /** What the corrected update DTO accepts: every property may be absent; a
      supplied title or time must pass its create rule (so `null` is refused
      there); the optional string fields may still be `null`. */
  predicate ValidUpdateBody(p: Platform, body: Body) {
    && body.Keys <= EventProperties
    && ("title" in body ==> TitleProperty(body))
    && OptionalString(body, "description")
    && ("startTime" in body ==> DateProperty(p, body, "startTime"))
    && ("endTime" in body ==> DateProperty(p, body, "endTime"))
    && OptionalString(body, "imageURL")
    && OptionalString(body, "videoURL")
  }

  /** One property passes: it is skipped, or every decorator on it holds. */
  predicate RuleAccepts(p: Platform, rule: PropertyRule, body: Body) {
    var v := Lookup(body, rule.name);
    Skipped(rule, v) || forall c :: c in rule.constraints ==> Holds(p, c, v)
  }

  /** Six rules, one per event property, pass together. */
  predicate SixAccept(p: Platform, rs: seq<PropertyRule>, body: Body)
    requires |rs| == 6
  {
    && RuleAccepts(p, rs[0], body) && RuleAccepts(p, rs[1], body) && RuleAccepts(p, rs[2], body)
    && RuleAccepts(p, rs[3], body) && RuleAccepts(p, rs[4], body) && RuleAccepts(p, rs[5], body)
  }

  /** The whitelist check passes exactly when every property is declared. */
  lemma WhitelistIff(p: Platform, rules: seq<PropertyRule>, body: Body)
    ensures Validate(p, rules, body) == {} <==>
      body.Keys <= Names(rules) && RulesViolations(p, rules, body) == {}
  {
    if !(body.Keys <= Names(rules)) {
      var k :| k in body.Keys && k !in Names(rules);
      assert NotWhitelisted(k) in Validate(p, rules, body);
    }
  }

  /** One property reports nothing exactly when the rule accepts it. */
  lemma PropertyIff(p: Platform, rule: PropertyRule, body: Body)
    ensures PropertyViolations(p, rule, Lookup(body, rule.name)) == {} <==> RuleAccepts(p, rule, body)
  {
    var v := Lookup(body, rule.name);
    if !RuleAccepts(p, rule, body) {
      var c :| c in rule.constraints && !Holds(p, c, v);
      assert Failed(rule.name, c) in PropertyViolations(p, rule, v);
    }
  }

  lemma {:induction false} RulesIff(p: Platform, rules: seq<PropertyRule>, body: Body)
    ensures RulesViolations(p, rules, body) == {} <==>
      forall i :: 0 <= i < |rules| ==> RuleAccepts(p, rules[i], body)
    decreases |rules|
  {
    if |rules| > 0 {
      RulesIff(p, rules[1..], body);
      PropertyIff(p, rules[0], body);
      assert forall i :: 1 <= i < |rules| ==> rules[i] == rules[1..][i - 1];
    }
  }

  /** The pipe accepts a body exactly when every property is declared and every rule accepts it. */
  lemma ValidateIff(p: Platform, rules: seq<PropertyRule>, body: Body)
    ensures Validate(p, rules, body) == {} <==>
      body.Keys <= Names(rules) && forall i :: 0 <= i < |rules| ==> RuleAccepts(p, rules[i], body)
  {
    WhitelistIff(p, rules, body);
    RulesIff(p, rules, body);
  }

  lemma SixIff(p: Platform, rs: seq<PropertyRule>, body: Body)
    requires |rs| == 6
    ensures Validate(p, rs, body) == {} <==> body.Keys <= Names(rs) && SixAccept(p, rs, body)
  {
    ValidateIff(p, rs, body);
    if SixAccept(p, rs, body) {
      forall i | 0 <= i < 6 ensures RuleAccepts(p, rs[i], body) {
        if i == 0 {} else if i == 1 {} else if i == 2 {} else if i == 3 {} else if i == 4 {} else {}
      }
    }
  }

  lemma SixNames(rs: seq<PropertyRule>)
    requires |rs| == 6
    requires rs[0].name == "title" && rs[1].name == "description" && rs[2].name == "startTime"
    requires rs[3].name == "endTime" && rs[4].name == "imageURL" && rs[5].name == "videoURL"
    ensures Names(rs) == EventProperties
  {
    assert forall x :: x in Names(rs) ==> exists i :: 0 <= i < 6 && rs[i].name == x;
    assert rs[0].name in Names(rs) && rs[1].name in Names(rs) && rs[2].name in Names(rs);
    assert rs[3].name in Names(rs) && rs[4].name in Names(rs) && rs[5].name in Names(rs);
  }

  /** The title rule, with `optional` for `@IsOptional()` and `skipUndefined` for the guard. */
  lemma TitleRule(p: Platform, r: PropertyRule, body: Body, optional: bool, skipUndefined: bool)
    requires r.name == "title"
    requires forall c :: c in r.constraints <==>
      c == IsString || c == IsNotEmpty || c == MinLength(3)
      || (optional && c == IsOptional) || (skipUndefined && c == SkipUndefined)
    ensures RuleAccepts(p, r, body) <==>
      if optional then OrNull(body, "title", TitleProperty(body))
      else if skipUndefined then "title" in body ==> TitleProperty(body)
      else TitleProperty(body)
  {
    assert IsString in r.constraints && MinLength(3) in r.constraints;
    var v := Lookup(body, "title");
    if v.Some? && v.value.JString? && MeasuredLength(v.value.s) >= 3 {
      assert forall c :: c in r.constraints ==> Holds(p, c, v);
    }
  }

  /** A date rule, with the same two switches. */
  lemma DateRule(p: Platform, r: PropertyRule, body: Body, optional: bool, skipUndefined: bool)
    requires forall c :: c in r.constraints <==>
      c == IsDateString || c == IsNotEmpty
      || (optional && c == IsOptional) || (skipUndefined && c == SkipUndefined)
    ensures RuleAccepts(p, r, body) <==>
      if optional then OrNull(body, r.name, DateProperty(p, body, r.name))
      else if skipUndefined then r.name in body ==> DateProperty(p, body, r.name)
      else DateProperty(p, body, r.name)
  {
    assert IsDateString in r.constraints && IsNotEmpty in r.constraints;
    var v := Lookup(body, r.name);
    if v.Some? && v.value.JString? && v.value.s != "" && p.isDateString(v.value.s) {
      assert forall c :: c in r.constraints ==> Holds(p, c, v);
    }
  }

  /** An optional string rule. */
  lemma OptionalStringRule(p: Platform, r: PropertyRule, body: Body)
    requires forall c :: c in r.constraints <==> c == IsString || c == IsOptional
    ensures RuleAccepts(p, r, body) <==> OptionalString(body, r.name)
  {
    assert IsString in r.constraints && IsOptional in r.constraints;
    var v := Lookup(body, r.name);
    if v.Some? && v.value.JString? {
      assert forall c :: c in r.constraints ==> Holds(p, c, v);
    }
  }

  // What each decorated property of the two rule sets accepts.

  lemma CreateTitleMeaning(p: Platform, body: Body)
    ensures RuleAccepts(p, CreateEventRules[0], body) <==> TitleProperty(body)
  {
    TitleRule(p, CreateEventRules[0], body, false, false);
  }

  lemma CreateTimesMeaning(p: Platform, body: Body)
    ensures RuleAccepts(p, CreateEventRules[2], body) <==> DateProperty(p, body, "startTime")
    ensures RuleAccepts(p, CreateEventRules[3], body) <==> DateProperty(p, body, "endTime")
  {
    DateRule(p, CreateEventRules[2], body, false, false);
    DateRule(p, CreateEventRules[3], body, false, false);
  }

  lemma CreateOptionalsMeaning(p: Platform, body: Body)
    ensures RuleAccepts(p, CreateEventRules[1], body) <==> OptionalString(body, "description")
    ensures RuleAccepts(p, CreateEventRules[4], body) <==> OptionalString(body, "imageURL")
    ensures RuleAccepts(p, CreateEventRules[5], body) <==> OptionalString(body, "videoURL")
  {
    OptionalStringRule(p, CreateEventRules[1], body);
    OptionalStringRule(p, CreateEventRules[4], body);
    OptionalStringRule(p, CreateEventRules[5], body);
  }

  lemma AsWrittenTitleMeaning(p: Platform, body: Body)
    ensures RuleAccepts(p, UpdateEventRulesAsWritten[0], body) <==> OrNull(body, "title", TitleProperty(body))
  {
    TitleRule(p, UpdateEventRulesAsWritten[0], body, true, false);
  }

  lemma AsWrittenTimesMeaning(p: Platform, body: Body)
    ensures RuleAccepts(p, UpdateEventRulesAsWritten[2], body) <==> OrNull(body, "startTime", DateProperty(p, body, "startTime"))
    ensures RuleAccepts(p, UpdateEventRulesAsWritten[3], body) <==> OrNull(body, "endTime", DateProperty(p, body, "endTime"))
  {
    DateRule(p, UpdateEventRulesAsWritten[2], body, true, false);
    DateRule(p, UpdateEventRulesAsWritten[3], body, true, false);
  }

  lemma AsWrittenOptionalsMeaning(p: Platform, body: Body)
    ensures RuleAccepts(p, UpdateEventRulesAsWritten[1], body) <==> OptionalString(body, "description")
    ensures RuleAccepts(p, UpdateEventRulesAsWritten[4], body) <==> OptionalString(body, "imageURL")
    ensures RuleAccepts(p, UpdateEventRulesAsWritten[5], body) <==> OptionalString(body, "videoURL")
  {
    OptionalStringRule(p, UpdateEventRulesAsWritten[1], body);
    OptionalStringRule(p, UpdateEventRulesAsWritten[4], body);
    OptionalStringRule(p, UpdateEventRulesAsWritten[5], body);
  }

  /** The pipe accepts a creation body exactly when it is a valid creation body. */
  lemma CreateValidationIff(p: Platform, body: Body)
    ensures Validate(p, CreateEventRules, body) == {} <==> ValidCreateBody(p, body)
  {
    var rs := CreateEventRules;
    SixNames(rs);
    SixIff(p, rs, body);
    CreateTitleMeaning(p, body);
    CreateTimesMeaning(p, body);
    CreateOptionalsMeaning(p, body);
  }

  /** As written, the update pipe accepts exactly the bodies described by
      `ValidUpdateBodyAsWritten`, `null` title and times included. */
  lemma UpdateValidationAsWrittenIff(p: Platform, body: Body)
    ensures Validate(p, UpdateEventRulesAsWritten, body) == {} <==> ValidUpdateBodyAsWritten(p, body)
  {
    var rs := UpdateEventRulesAsWritten;
    SixNames(rs);
    SixIff(p, rs, body);
    AsWrittenTitleMeaning(p, body);
    AsWrittenTimesMeaning(p, body);
    AsWrittenOptionalsMeaning(p, body);
  }

  lemma UpdateRulesRequiredShape(i: nat)
    requires i == 0 || i == 2 || i == 3
    ensures |UpdateEventRules| == 6
    ensures forall c :: c in UpdateEventRules[i].constraints <==>
      c in CreateEventRules[i].constraints || c == SkipUndefined
  {
    assert IsOptional !in CreateEventRules[i].constraints;
  }

  lemma UpdateRulesOptionalShape(i: nat)
    requires i == 1 || i == 4 || i == 5
    ensures |UpdateEventRules| == 6
    ensures forall c :: c in UpdateEventRules[i].constraints <==> c == IsString || c == IsOptional
  {
    assert IsOptional in CreateEventRules[i].constraints;
  }

  lemma UpdateRequiredAccepts(p: Platform, body: Body)
    ensures |UpdateEventRules| == 6
    ensures RuleAccepts(p, UpdateEventRules[0], body) <==> ("title" in body ==> TitleProperty(body))
    ensures RuleAccepts(p, UpdateEventRules[2], body) <==> ("startTime" in body ==> DateProperty(p, body, "startTime"))
    ensures RuleAccepts(p, UpdateEventRules[3], body) <==> ("endTime" in body ==> DateProperty(p, body, "endTime"))
  {
    var rs := UpdateEventRules;
    UpdateRulesRequiredShape(0);
    UpdateRulesRequiredShape(2);
    UpdateRulesRequiredShape(3);
    TitleRule(p, rs[0], body, false, true);
    DateRule(p, rs[2], body, false, true);
    DateRule(p, rs[3], body, false, true);
  }

  lemma UpdateOptionalAccepts(p: Platform, body: Body)
    ensures |UpdateEventRules| == 6
    ensures RuleAccepts(p, UpdateEventRules[1], body) <==> OptionalString(body, "description")
    ensures RuleAccepts(p, UpdateEventRules[4], body) <==> OptionalString(body, "imageURL")
    ensures RuleAccepts(p, UpdateEventRules[5], body) <==> OptionalString(body, "videoURL")
  {
    var rs := UpdateEventRules;
    UpdateRulesOptionalShape(1);
    UpdateRulesOptionalShape(4);
    UpdateRulesOptionalShape(5);
    OptionalStringRule(p, rs[1], body);
    OptionalStringRule(p, rs[4], body);
    OptionalStringRule(p, rs[5], body);
  }

  /** The corrected update pipe accepts exactly the bodies described by `ValidUpdateBody`. */
  lemma UpdateValidationIff(p: Platform, body: Body)
    ensures Validate(p, UpdateEventRules, body) == {} <==> ValidUpdateBody(p, body)
  {
    var rs := UpdateEventRules;
    UpdateRequiredAccepts(p, body);
    UpdateOptionalAccepts(p, body);
    SixNames(rs);
    SixIff(p, rs, body);
  }

  /** `CreateEventDto` once the pipe has accepted the body. */
  datatype CreateEventDto = CreateEventDto(
    title: string,
    description: Option<string>,
    startTime: string,
    endTime: string,
    imageURL: Option<string>,
    videoURL: Option<string>)

  /** `UpdateEventDto` once the pipe has accepted the body: `Keep` for an
      absent property, `Put(None)` for an explicit `null` optional field. */
  datatype UpdateEventDto = UpdateEventDto(
    title: Patch<string>,
    description: Patch<Option<string>>,
    startTime: Patch<string>,
    endTime: Patch<string>,
    imageURL: Patch<Option<string>>,
    videoURL: Patch<Option<string>>)

  /** The string in an optional field, `None` for absent or `null`. */
  function OptStr(body: Body, k: string): Option<string> {
    if IsStr(body, k) then Some(body[k].s) else None
  }

  /** A supplied string field overwrites; an absent one is kept. */
  function PatchStr(body: Body, k: string): Patch<string> {
    if IsStr(body, k) then Put(body[k].s) else Keep
  }

  /** A supplied optional field (string or `null`) overwrites; an absent one is kept. */
  function PatchOpt(body: Body, k: string): Patch<Option<string>> {
    if k in body then Put(OptStr(body, k)) else Keep
  }

  /** The `POST /events` body through the validation pipe. */
  function ParseCreateEventDto(p: Platform, body: Body): (r: Result<CreateEventDto, set<Violation>>)
    ensures r.Success? <==> ValidCreateBody(p, body)
    ensures r.Failure? ==> r.error != {}
    ensures r.Success? ==>
      && r.value.title == body["title"].s && MeasuredLength(r.value.title) >= 3
      && r.value.startTime == body["startTime"].s && p.isDateString(r.value.startTime)
      && r.value.endTime == body["endTime"].s && p.isDateString(r.value.endTime)
      && r.value.description == OptStr(body, "description")
      && r.value.imageURL == OptStr(body, "imageURL")
      && r.value.videoURL == OptStr(body, "videoURL")
  {
    var violations := Validate(p, CreateEventRules, body);
    CreateValidationIff(p, body);
    if violations != {} then Failure(violations)
    else Success(CreateEventDto(
      body["title"].s, OptStr(body, "description"), body["startTime"].s, body["endTime"].s,
      OptStr(body, "imageURL"), OptStr(body, "videoURL")))
  }

  /** The `PATCH /events/:id` body through the (corrected) validation pipe. */
  function ParseUpdateEventDto(p: Platform, body: Body): (r: Result<UpdateEventDto, set<Violation>>)
    ensures r.Success? <==> ValidUpdateBody(p, body)
    ensures r.Failure? ==> r.error != {}
    ensures r.Success? ==>
      && (r.value.title.Put? <==> "title" in body)
      && (r.value.title.Put? ==> r.value.title.value == body["title"].s && MeasuredLength(r.value.title.value) >= 3)
      && (r.value.startTime.Put? <==> "startTime" in body)
      && (r.value.startTime.Put? ==> p.isDateString(r.value.startTime.value))
      && (r.value.endTime.Put? <==> "endTime" in body)
      && (r.value.endTime.Put? ==> p.isDateString(r.value.endTime.value))
      && r.value.description == PatchOpt(body, "description")
      && r.value.imageURL == PatchOpt(body, "imageURL")
      && r.value.videoURL == PatchOpt(body, "videoURL")
  {
    var violations := Validate(p, UpdateEventRules, body);
    UpdateValidationIff(p, body);
    if violations != {} then Failure(violations)
    else Success(UpdateEventDto(
      PatchStr(body, "title"), PatchOpt(body, "description"), PatchStr(body, "startTime"),
      PatchStr(body, "endTime"), PatchOpt(body, "imageURL"), PatchOpt(body, "videoURL")))
  }

  /** A body with a title and two equal times is a valid creation body. */
  lemma EqualTimesBodyValid(p: Platform, title: string, t: string)
    requires MeasuredLength(title) >= 3 && t != "" && p.isDateString(t)
    ensures ValidCreateBody(p, map["title" := JString(title), "startTime" := JString(t), "endTime" := JString(t)])
  {
    var body := map["title" := JString(title), "startTime" := JString(t), "endTime" := JString(t)];
    assert body.Keys == {"title", "startTime", "endTime"};
    assert TitleProperty(body) && DateProperty(p, body, "startTime") && DateProperty(p, body, "endTime");
  }

  /** No cross-field check: a creation body whose start equals its end passes. */
  lemma CreateAcceptsUnorderedTimes(p: Platform, title: string, t: string)
    requires MeasuredLength(title) >= 3 && t != "" && p.isDateString(t)
    ensures ParseCreateEventDto(p, map["title" := JString(title), "startTime" := JString(t), "endTime" := JString(t)])
      == Success(CreateEventDto(title, None, t, t, None, None))
  {
    var body := map["title" := JString(title), "startTime" := JString(t), "endTime" := JString(t)];
    EqualTimesBodyValid(p, title, t);
    assert !IsStr(body, "description") && !IsStr(body, "imageURL") && !IsStr(body, "videoURL");
  }

  /** An empty update body is valid and changes nothing. */
  lemma EmptyUpdateAccepted(p: Platform)
    ensures ParseUpdateEventDto(p, map[]) == Success(UpdateEventDto(Keep, Keep, Keep, Keep, Keep, Keep))
  {
  }

  /** Server-managed properties cannot be supplied in either body. */
  lemma ServerFieldsRejected(p: Platform, body: Body)
    requires "id" in body || "createdAt" in body || "updatedAt" in body
    ensures ParseCreateEventDto(p, body).Failure? && ParseUpdateEventDto(p, body).Failure?
  {
    assert "id" !in EventProperties && "createdAt" !in EventProperties && "updatedAt" !in EventProperties;
    assert !(body.Keys <= EventProperties);
  }

  /** The update DTO checks no ordering: a supplied start later than the supplied end passes. */
  lemma UpdateAcceptsUnorderedTimes(p: Platform, s: string, e: string)
    requires s != "" && e != "" && p.isDateString(s) && p.isDateString(e)
    ensures ParseUpdateEventDto(p, map["startTime" := JString(s), "endTime" := JString(e)]).Success?
  {
    var body := map["startTime" := JString(s), "endTime" := JString(e)];
    assert ValidUpdateBody(p, body) by {
      assert body.Keys == {"startTime", "endTime"};
      assert DateProperty(p, body, "startTime") && DateProperty(p, body, "endTime");
    }
  }

  /** As written, `PartialType` lets a `null` title through, although an event's title is a string. */
  lemma NullTitlePassesAsWritten(p: Platform)
    ensures Validate(p, UpdateEventRulesAsWritten, map["title" := JNull]) == {}
  {
    var body := map["title" := JNull];
    assert body.Keys == {"title"};
    UpdateValidationAsWrittenIff(p, body);
  }

  /** The corrected DTO refuses it. */
  lemma NullTitleRejected(p: Platform)
    ensures ParseUpdateEventDto(p, map["title" := JNull]).Failure?
  {
  }
}
