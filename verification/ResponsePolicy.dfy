/**
 * How the assistant answers a message: decide_response of
 * packages/domain/services/response_policy.py, and what the history-adjusted
 * confidences do to that decision.
 */
module ResponsePolicy {
  import opened Results
  import opened Confidence

  datatype Field = AoiInput | AoiSourceType | TimeRange | AnalysisKind | OtherField(name: string)

  datatype Intent = Chat | NewTask | TaskFollowup | TaskCorrection | TaskConfirmation

  datatype Analysis = WORKFLOW | NDVI | NDWI | BAND_MATH | FILTER | SLOPE_ASPECT | BUFFER | CLIP

  /** The parsed specification, as far as the policy reads it. */
  datatype Parsed = Parsed(missingFields: seq<Field>, analysis: Analysis)

  datatype Understanding = Understanding(intent: Intent, confidences: map<Field, FieldConfidence>, parsed: Option<Parsed>)

  /** raw_spec_json of the active revision: the keys it has, and those that are not null. */
  datatype RawSpec = RawSpec(keys: set<Field>, known: set<Field>, analysis: Analysis)

  datatype ActiveRevision = ActiveRevision(executionBlocked: bool, spec: Option<RawSpec>)

  datatype Preference = AlwaysConfirm | Balanced | PreferExecute

  datatype Risk = LowRisk | MediumRisk | HighRisk | CriticalRisk

  datatype Mode = AskMissingFields | ChatReply | ShowRevision | ConfirmUnderstanding | ExecuteNow

  datatype Decision = Decision(
    mode: Mode, editable: seq<Field>, missing: seq<Field>,
    executionBlocked: bool, requiresRevision: bool, requiresExecution: bool)

  // ---- _required_fields, _key_field_levels and the lists made from them ----------------------------------

  predicate NeedsTimeRange(a: Analysis) {
    a == NDVI || a == NDWI
  }

  function AnalysisOf(u: Understanding, rev: Option<ActiveRevision>): Analysis {
    if u.parsed.Some? then u.parsed.value.analysis
    else if rev.Some? && rev.value.spec.Some? then rev.value.spec.value.analysis
    else WORKFLOW
  }

  function RequiredFields(u: Understanding, rev: Option<ActiveRevision>): seq<Field> {
    if NeedsTimeRange(AnalysisOf(u, rev)) then [AoiInput, AoiSourceType, TimeRange, AnalysisKind]
    else [AoiInput, AoiSourceType, AnalysisKind]
  }

  function ScoreOf(u: Understanding, f: Field): real {
    if f in u.confidences then u.confidences[f].score else 0.0
  }

  function LevelAt(u: Understanding, th: Thresholds, f: Field): Level {
    LevelOf(th, ScoreOf(u, f))
  }

  /** _key_field_levels */
  method KeyFieldLevels(u: Understanding, th: Thresholds, keyFields: seq<Field>) returns (levels: map<Field, Level>)
    ensures forall f :: f in levels <==> f in keyFields
    ensures forall f :: f in keyFields ==> levels[f] == LevelAt(u, th, f)
  {
    levels := map[];
    for i := 0 to |keyFields|
      invariant forall f :: f in levels <==> f in keyFields[..i]
      invariant forall f :: f in levels ==> levels[f] == LevelAt(u, th, f)
    {
      var score := ScoreOf(u, keyFields[i]);
      var level;
      if score >= th.high {
        level := High;
      } else if score >= th.medium {
        level := Medium;
      } else {
        level := Low;
      }
      levels := levels[keyFields[i] := level];
      assert keyFields[..i + 1] == keyFields[..i] + [keyFields[i]];
    }
    assert keyFields[..|keyFields|] == keyFields;
  }

  function AtLevel(u: Understanding, th: Thresholds, fields: seq<Field>, level: Level): (r: seq<Field>)
    ensures forall f :: f in r <==> f in fields && LevelAt(u, th, f) == level
  {
    if fields == [] then []
    else
      var rest := AtLevel(u, th, fields[1..], level);
      assert fields == [fields[0]] + fields[1..];
      if LevelAt(u, th, fields[0]) == level then [fields[0]] + rest else rest
  }

  function OnlyIn(fields: seq<Field>, keyFields: seq<Field>): (r: seq<Field>)
    ensures forall f :: f in r <==> f in fields && f in keyFields
  {
    if fields == [] then []
    else
      var rest := OnlyIn(fields[1..], keyFields);
      assert fields == [fields[0]] + fields[1..];
      if fields[0] in keyFields then [fields[0]] + rest else rest
  }

  /** dict.fromkeys: the first of equal entries stays. */
  function Unrepeated(fields: seq<Field>): (r: seq<Field>)
    ensures forall f :: f in r <==> f in fields
    ensures forall i, j :: 0 <= i < j < |r| ==> r[i] != r[j]
  {
    if fields == [] then []
    else
      var init := Unrepeated(fields[..|fields| - 1]);
      var last := fields[|fields| - 1];
      assert fields == fields[..|fields| - 1] + [last];
      if last in init then init else init + [last]
  }

  function ParserMissing(u: Understanding, keyFields: seq<Field>): seq<Field> {
    if u.parsed.None? then [] else OnlyIn(u.parsed.value.missingFields, keyFields)
  }

  /** low_fields: what is too uncertain, or missing for the parser. */
  function LowFields(u: Understanding, th: Thresholds, keyFields: seq<Field>): seq<Field> {
    Unrepeated(AtLevel(u, th, keyFields, Low) + ParserMissing(u, keyFields))
  }

  function OrAll(fields: seq<Field>, keyFields: seq<Field>): seq<Field> {
    if fields == [] then keyFields else fields
  }

  function InSet(fields: seq<Field>, s: set<Field>): seq<Field> {
    if fields == [] then []
    else (if fields[0] in s then [fields[0]] else []) + InSet(fields[1..], s)
  }

  function EditableFromRevision(rev: ActiveRevision, keyFields: seq<Field>): seq<Field> {
    if rev.spec.None? then keyFields else OrAll(InSet(keyFields, rev.spec.value.keys), keyFields)
  }

  const KEY_FIELDS := {AoiInput, AoiSourceType, TimeRange, AnalysisKind}

  /** A correction is only shown for an active revision, with something to correct. */
  predicate EnoughToCorrect(u: Understanding, rev: Option<ActiveRevision>) {
    && rev.Some?
    && (u.parsed.Some? || (rev.value.spec.Some? && rev.value.spec.value.known * KEY_FIELDS != {}))
  }

  predicate ForcesConfirmation(pref: Preference, risk: Risk) {
    pref == AlwaysConfirm || risk == HighRisk || risk == CriticalRisk
  }

  // ---- decide_response ------------------------------------------------------------------------------------

  predicate AllHigh(u: Understanding, th: Thresholds, keyFields: seq<Field>) {
    forall f :: f in keyFields ==> LevelAt(u, th, f) == High
  }

  function DecisionFor(mode: Mode, editable: seq<Field>, missing: seq<Field>, blocked: bool): Decision {
    Decision(mode, editable, missing, blocked, mode == ShowRevision, mode == ExecuteNow)
  }

  /** decide_response: the branches from the top; the last return is never reached. */
  method DecideResponse(u: Understanding, rev: Option<ActiveRevision>, th: Thresholds, pref: Preference, risk: Risk)
    returns (d: Decision)
    ensures d == Decide(u, rev, th, pref, risk)
  {
    var keyFields := RequiredFields(u, rev);
    var levels := KeyFieldLevels(u, th, keyFields);
    var low := LowFields(u, th, keyFields);
    var medium := AtLevel(u, th, keyFields, Medium);
    var allHigh := forall f :: f in keyFields ==> levels[f] == High;
    if rev.Some? && rev.value.executionBlocked {
      var editable := EditableFromRevision(rev.value, keyFields);
      return DecisionFor(AskMissingFields, editable, editable, true);
    }
    if u.intent == Chat {
      return DecisionFor(ChatReply, [], [], false);
    }
    if low != [] {
      return DecisionFor(AskMissingFields, low, low, false);
    }
    if u.intent == TaskCorrection && EnoughToCorrect(u, rev) {
      return DecisionFor(ShowRevision, EditableFromRevision(rev.value, keyFields), [], false);
    }
    if medium != [] {
      return DecisionFor(ConfirmUnderstanding, medium, [], false);
    }
    NothingBelowHigh(u, th, keyFields);
    if allHigh && ForcesConfirmation(pref, risk) {
      return DecisionFor(ConfirmUnderstanding, keyFields, [], false);
    }
    if allHigh {
      return DecisionFor(ExecuteNow, [], [], false);
    }
    assert false;
  }

  /** What is answered: the first of these that applies. */
  function Decide(u: Understanding, rev: Option<ActiveRevision>, th: Thresholds, pref: Preference, risk: Risk): Decision {
    var keyFields := RequiredFields(u, rev);
    var low, medium := LowFields(u, th, keyFields), AtLevel(u, th, keyFields, Medium);
    if rev.Some? && rev.value.executionBlocked then
      var editable := EditableFromRevision(rev.value, keyFields);
      DecisionFor(AskMissingFields, editable, editable, true)
    else if u.intent == Chat then DecisionFor(ChatReply, [], [], false)
    else if low != [] then DecisionFor(AskMissingFields, low, low, false)
    else if u.intent == TaskCorrection && EnoughToCorrect(u, rev) then
      DecisionFor(ShowRevision, EditableFromRevision(rev.value, keyFields), [], false)
    else if medium != [] then DecisionFor(ConfirmUnderstanding, medium, [], false)
    else if ForcesConfirmation(pref, risk) then DecisionFor(ConfirmUnderstanding, keyFields, [], false)
    else DecisionFor(ExecuteNow, [], [], false)
  }

  /** With no low and no medium field left, every key field is high: the last return is unreachable. */
  lemma NothingBelowHigh(u: Understanding, th: Thresholds, keyFields: seq<Field>)
    requires LowFields(u, th, keyFields) == [] && AtLevel(u, th, keyFields, Medium) == []
    ensures AllHigh(u, th, keyFields)
  {
    var low := AtLevel(u, th, keyFields, Low);
    forall f | f in keyFields
      ensures LevelAt(u, th, f) == High
    {
      assert LevelAt(u, th, f) == Low ==> f in low + ParserMissing(u, keyFields);
      assert f in AtLevel(u, th, keyFields, Medium) <==> LevelAt(u, th, f) == Medium;
    }
  }

  lemma LowFieldsExactly(u: Understanding, th: Thresholds, keyFields: seq<Field>)
    ensures var low := LowFields(u, th, keyFields);
            && (forall f :: f in low <==>
                  f in keyFields && (LevelAt(u, th, f) == Low
                                     || (u.parsed.Some? && f in u.parsed.value.missingFields)))
            && (forall i, j :: 0 <= i < j < |low| ==> low[i] != low[j])
  {
    var all := AtLevel(u, th, keyFields, Low) + ParserMissing(u, keyFields);
    assert forall f :: f in Unrepeated(all) <==> f in AtLevel(u, th, keyFields, Low) || f in ParserMissing(u, keyFields);
  }

  /**
   * A task is executed without asking exactly when nothing stands against it:
   * no block, no chat, every required field of high confidence and none missing,
   * no correction to show, and nothing that forces a confirmation.
   */
  lemma ExecutesExactly(u: Understanding, rev: Option<ActiveRevision>, th: Thresholds, pref: Preference, risk: Risk)
    ensures var keyFields := RequiredFields(u, rev);
            (Decide(u, rev, th, pref, risk).mode == ExecuteNow) ==
            (&& !(rev.Some? && rev.value.executionBlocked)
             && u.intent != Chat
             && AllHigh(u, th, keyFields)
             && (forall f :: f in keyFields && u.parsed.Some? ==> f !in u.parsed.value.missingFields)
             && !(u.intent == TaskCorrection && EnoughToCorrect(u, rev))
             && !ForcesConfirmation(pref, risk))
  {
    var keyFields := RequiredFields(u, rev);
    LowFieldsExactly(u, th, keyFields);
    hide LowFields, RequiredFields;
    var low, medium := LowFields(u, th, keyFields), AtLevel(u, th, keyFields, Medium);
    if low == [] && medium == [] {
      NothingBelowHigh(u, th, keyFields);
    }
    if low != [] {
      assert low[0] in low;
    }
    if medium != [] {
      assert medium[0] in medium;
    }
  }

  // ---- When which answer is given, and what it names ---------------------------------------------------------

  /** The field is needed for the analysis of the message, or else of the active revision. */
  predicate IsNeeded(u: Understanding, rev: Option<ActiveRevision>, f: Field) {
    || f in {AoiInput, AoiSourceType, AnalysisKind}
    || (f == TimeRange
        && if u.parsed.Some? then u.parsed.value.analysis in {NDVI, NDWI}
           else rev.Some? && rev.value.spec.Some? && rev.value.spec.value.analysis in {NDVI, NDWI})
  }

  predicate ScoredBelow(u: Understanding, f: Field, bound: real) {
    if f in u.confidences then u.confidences[f].score < bound else 0.0 < bound
  }

  /** Needed, and missing for the parser or below both thresholds. */
  predicate IsUncertain(u: Understanding, rev: Option<ActiveRevision>, th: Thresholds, f: Field) {
    && IsNeeded(u, rev, f)
    && (|| (u.parsed.Some? && f in u.parsed.value.missingFields)
        || (ScoredBelow(u, f, th.high) && ScoredBelow(u, f, th.medium)))
  }

  /** Needed, and between the thresholds. */
  predicate IsHalfSure(u: Understanding, rev: Option<ActiveRevision>, th: Thresholds, f: Field) {
    IsNeeded(u, rev, f) && ScoredBelow(u, f, th.high) && !ScoredBelow(u, f, th.medium)
  }

  ghost predicate AnyUncertain(u: Understanding, rev: Option<ActiveRevision>, th: Thresholds) {
    exists f :: IsUncertain(u, rev, th, f)
  }

  ghost predicate AnyHalfSure(u: Understanding, rev: Option<ActiveRevision>, th: Thresholds) {
    exists f :: IsHalfSure(u, rev, th, f)
  }

  predicate IsBlocked(rev: Option<ActiveRevision>) {
    rev.Some? && rev.value.executionBlocked
  }

  /** A correction of an active revision, with a parsed message or something known to correct. */
  ghost predicate IsCorrectable(u: Understanding, rev: Option<ActiveRevision>) {
    && u.intent == TaskCorrection && rev.Some?
    && (u.parsed.Some? || (rev.value.spec.Some?
        && exists f :: f in rev.value.spec.value.known && f in {AoiInput, AoiSourceType, TimeRange, AnalysisKind}))
  }

  /** A needed field the revision has a value for; without a specification, or without any such value, each of them. */
  ghost predicate IsOffered(u: Understanding, rev: ActiveRevision, f: Field) {
    && IsNeeded(u, Some(rev), f)
    && (rev.spec.None? || f in rev.spec.value.keys || forall g :: IsNeeded(u, Some(rev), g) ==> g !in rev.spec.value.keys)
  }

  lemma NeededExactly(u: Understanding, rev: Option<ActiveRevision>)
    ensures forall f :: f in RequiredFields(u, rev) <==> IsNeeded(u, rev, f)
  {}

  lemma LevelsExactly(u: Understanding, th: Thresholds, f: Field)
    ensures LevelAt(u, th, f) == Low <==> ScoredBelow(u, f, th.high) && ScoredBelow(u, f, th.medium)
    ensures LevelAt(u, th, f) == Medium <==> ScoredBelow(u, f, th.high) && !ScoredBelow(u, f, th.medium)
  {}

  /** The lists the policy makes are those fields. */
  lemma ListsExactly(u: Understanding, rev: Option<ActiveRevision>, th: Thresholds)
    ensures var keyFields := RequiredFields(u, rev);
            && (forall f :: f in LowFields(u, th, keyFields) <==> IsUncertain(u, rev, th, f))
            && (forall f :: f in AtLevel(u, th, keyFields, Medium) <==> IsHalfSure(u, rev, th, f))
  {
    var keyFields := RequiredFields(u, rev);
    NeededExactly(u, rev);
    LowFieldsExactly(u, th, keyFields);
    hide RequiredFields, IsNeeded, LevelAt, ScoredBelow, LowFields;
    forall f
      ensures LevelAt(u, th, f) == Low <==> ScoredBelow(u, f, th.high) && ScoredBelow(u, f, th.medium)
      ensures LevelAt(u, th, f) == Medium <==> ScoredBelow(u, f, th.high) && !ScoredBelow(u, f, th.medium)
    {
      LevelsExactly(u, th, f);
    }
  }

  lemma EmptyListsExactly(u: Understanding, rev: Option<ActiveRevision>, th: Thresholds)
    ensures LowFields(u, th, RequiredFields(u, rev)) == [] <==> !AnyUncertain(u, rev, th)
    ensures AtLevel(u, th, RequiredFields(u, rev), Medium) == [] <==> !AnyHalfSure(u, rev, th)
  {
    var low, medium := LowFields(u, th, RequiredFields(u, rev)), AtLevel(u, th, RequiredFields(u, rev), Medium);
    ListsExactly(u, rev, th);
    hide LowFields, RequiredFields, IsUncertain, IsHalfSure;
    if low != [] {
      assert low[0] in low;
    }
    if medium != [] {
      assert medium[0] in medium;
    }
  }

  /**
   * Each answer comes exactly so: a blocked revision, or an uncertain field outside
   * chat, asks; chat chats; a correction with nothing uncertain shows the revision;
   * a half-sure field, or a preference or risk that demands it, confirms. The flags
   * tell the block, the revision shown and the execution.
   */
  lemma AnswersExactly(u: Understanding, rev: Option<ActiveRevision>, th: Thresholds, pref: Preference, risk: Risk)
    ensures var d := Decide(u, rev, th, pref, risk);
            var open := !IsBlocked(rev) && u.intent != Chat && !AnyUncertain(u, rev, th);
            var doubtful := AnyHalfSure(u, rev, th) || pref == AlwaysConfirm || risk == HighRisk || risk == CriticalRisk;
            && (d.mode == AskMissingFields <==> IsBlocked(rev) || (u.intent != Chat && AnyUncertain(u, rev, th)))
            && (d.mode == ChatReply <==> !IsBlocked(rev) && u.intent == Chat)
            && (d.mode == ShowRevision <==> open && IsCorrectable(u, rev))
            && (d.mode == ConfirmUnderstanding <==> open && !IsCorrectable(u, rev) && doubtful)
            && d.executionBlocked == IsBlocked(rev)
            && d.requiresRevision == (d.mode == ShowRevision) && d.requiresExecution == (d.mode == ExecuteNow)
  {
    EmptyListsExactly(u, rev, th);
    CorrectableExactly(u, rev);
    hide LowFields, RequiredFields, AtLevel, AnyUncertain, AnyHalfSure, EditableFromRevision, IsCorrectable, EnoughToCorrect;
  }

  lemma CorrectableExactly(u: Understanding, rev: Option<ActiveRevision>)
    ensures IsCorrectable(u, rev) <==> u.intent == TaskCorrection && EnoughToCorrect(u, rev)
  {
    if rev.Some? && rev.value.spec.Some? {
      var common := rev.value.spec.value.known * KEY_FIELDS;
      if common != {} {
        var f :| f in common;
        assert f in rev.value.spec.value.known && f in {AoiInput, AoiSourceType, TimeRange, AnalysisKind};
      }
      assert forall f :: f in rev.value.spec.value.known && f in KEY_FIELDS ==> f in common;
    }
  }

  lemma {:induction false} InSetExactly(fields: seq<Field>, s: set<Field>)
    ensures forall f :: f in InSet(fields, s) <==> f in fields && f in s
  {
    if fields != [] {
      InSetExactly(fields[1..], s);
      assert fields == [fields[0]] + fields[1..];
    }
  }

  lemma OfferedExactly(u: Understanding, rev: ActiveRevision)
    ensures forall f :: f in EditableFromRevision(rev, RequiredFields(u, Some(rev))) <==> IsOffered(u, rev, f)
  {
    var keyFields := RequiredFields(u, Some(rev));
    NeededExactly(u, Some(rev));
    hide RequiredFields, IsNeeded;
    if rev.spec.Some? {
      var offered := InSet(keyFields, rev.spec.value.keys);
      InSetExactly(keyFields, rev.spec.value.keys);
      hide InSet;
      if offered != [] {
        assert offered[0] in offered;
      }
    }
  }

  /**
   * What the answer names: a question for a blocked revision what it offers, any
   * other question the uncertain fields; a shown revision what it offers; a
   * confirmation the half-sure fields, or if there are none all that is needed.
   * Chat and execution name nothing, and only questions call fields missing.
   */
  lemma NamesExactly(u: Understanding, rev: Option<ActiveRevision>, th: Thresholds, pref: Preference, risk: Risk)
    ensures var d := Decide(u, rev, th, pref, risk);
            && (d.missing == if d.mode == AskMissingFields then d.editable else [])
            && (d.mode == AskMissingFields && IsBlocked(rev) ==> forall f :: f in d.editable <==> IsOffered(u, rev.value, f))
            && (d.mode == AskMissingFields && !IsBlocked(rev) ==>
                  forall f :: f in d.editable <==> IsUncertain(u, rev, th, f))
            && (d.mode == ShowRevision ==> rev.Some? && forall f :: f in d.editable <==> IsOffered(u, rev.value, f))
            && (d.mode == ConfirmUnderstanding ==>
                  forall f :: f in d.editable <==>
                    if AnyHalfSure(u, rev, th) then IsHalfSure(u, rev, th, f) else IsNeeded(u, rev, f))
            && (d.mode == ChatReply || d.mode == ExecuteNow ==> d.editable == [])
  {
    var d := Decide(u, rev, th, pref, risk);
    DecisionLists(u, rev, th, pref, risk);
    hide *;
    NeededExactly(u, rev);
    ListsExactly(u, rev, th);
    EmptyListsExactly(u, rev, th);
    if rev.Some? {
      OfferedExactly(u, rev.value);
    }
  }

  /** The lists each decision is made of. */
  lemma DecisionLists(u: Understanding, rev: Option<ActiveRevision>, th: Thresholds, pref: Preference, risk: Risk)
    ensures var d, keyFields := Decide(u, rev, th, pref, risk), RequiredFields(u, rev);
            var low, medium := LowFields(u, th, keyFields), AtLevel(u, th, keyFields, Medium);
            && (d.missing == if d.mode == AskMissingFields then d.editable else [])
            && (d.mode == AskMissingFields && IsBlocked(rev) ==> d.editable == EditableFromRevision(rev.value, keyFields))
            && (d.mode == AskMissingFields && !IsBlocked(rev) ==> d.editable == low)
            && (d.mode == ShowRevision ==> rev.Some? && d.editable == EditableFromRevision(rev.value, keyFields))
            && (d.mode == ConfirmUnderstanding ==> d.editable == if medium != [] then medium else keyFields)
            && (d.mode == ChatReply || d.mode == ExecuteNow ==> d.editable == [])
            && (IsBlocked(rev) ==> rev.Some?)
  {
    hide LowFields, RequiredFields, AtLevel, EditableFromRevision;
  }

  /** xs with some entries left out is ys. */
  predicate IsPartOf(ys: seq<Field>, xs: seq<Field>) {
    || ys == []
    || (xs != [] && if ys[0] == xs[0] then IsPartOf(ys[1..], xs[1..]) else IsPartOf(ys, xs[1..]))
  }

  lemma {:induction false} PartSkips(ys: seq<Field>, x: Field, xs: seq<Field>)
    requires IsPartOf(ys, xs)
    ensures IsPartOf(ys, [x] + xs)
    decreases |xs|, 1
  {
    assert ([x] + xs)[1..] == xs;
    if ys != [] && ys[0] == x {
      PartDrops(ys, xs);
    }
  }

  lemma {:induction false} PartDrops(ys: seq<Field>, xs: seq<Field>)
    requires ys != [] && IsPartOf(ys, xs)
    ensures IsPartOf(ys[1..], xs)
    decreases |xs|, 0
  {
    if ys[0] == xs[0] {
      PartSkips(ys[1..], xs[0], xs[1..]);
      assert [xs[0]] + xs[1..] == xs;
    } else {
      PartDrops(ys, xs[1..]);
      PartSkips(ys[1..], xs[0], xs[1..]);
      assert [xs[0]] + xs[1..] == xs;
    }
  }

  lemma {:induction false} PartsJoin(a: seq<Field>, b: seq<Field>, c: seq<Field>, d: seq<Field>)
    requires IsPartOf(a, c) && IsPartOf(b, d)
    ensures IsPartOf(a + b, c + d)
  {
    if a == [] {
      assert a + b == b;
      PartOfLonger(b, c, d);
    } else {
      assert (c + d)[1..] == c[1..] + d;
      assert (a + b)[1..] == a[1..] + b;
      if a[0] == c[0] {
        PartsJoin(a[1..], b, c[1..], d);
      } else {
        PartsJoin(a, b, c[1..], d);
      }
    }
  }

  lemma {:induction false} PartOfLonger(b: seq<Field>, c: seq<Field>, d: seq<Field>)
    requires IsPartOf(b, d)
    ensures IsPartOf(b, c + d)
  {
    if c == [] {
      assert c + d == d;
    } else {
      PartOfLonger(b, c[1..], d);
      PartSkips(b, c[0], c[1..] + d);
      assert [c[0]] + (c[1..] + d) == c + d;
    }
  }

  lemma {:induction false} PartIsWhole(xs: seq<Field>)
    ensures IsPartOf(xs, xs)
  {
    if xs != [] {
      PartIsWhole(xs[1..]);
    }
  }

  lemma {:induction false} PartOfPart(a: seq<Field>, b: seq<Field>, c: seq<Field>)
    requires IsPartOf(a, b) && IsPartOf(b, c)
    ensures IsPartOf(a, c)
    decreases |c|
  {
    if a != [] {
      if b[0] != c[0] {
        PartOfPart(a, b, c[1..]);
        PartSkips(a, c[0], c[1..]);
        assert [c[0]] + c[1..] == c;
      } else if a[0] == b[0] {
        PartOfPart(a[1..], b[1..], c[1..]);
      } else {
        PartOfPart(a, b[1..], c[1..]);
      }
    }
  }

  lemma {:induction false} ListsAreParts(u: Understanding, th: Thresholds, fields: seq<Field>, level: Level,
                                         keyFields: seq<Field>, s: set<Field>)
    ensures IsPartOf(AtLevel(u, th, fields, level), fields)
    ensures IsPartOf(OnlyIn(fields, keyFields), fields)
    ensures IsPartOf(InSet(fields, s), fields)
  {
    if fields != [] {
      ListsAreParts(u, th, fields[1..], level, keyFields, s);
      PartSkips(AtLevel(u, th, fields[1..], level), fields[0], fields[1..]);
      PartSkips(OnlyIn(fields[1..], keyFields), fields[0], fields[1..]);
      PartSkips(InSet(fields[1..], s), fields[0], fields[1..]);
      assert [] + InSet(fields[1..], s) == InSet(fields[1..], s);
      assert [fields[0]] + fields[1..] == fields;
    }
  }

  lemma {:induction false} UnrepeatedIsPart(fields: seq<Field>)
    ensures IsPartOf(Unrepeated(fields), fields)
  {
    if fields != [] {
      var init, last := fields[..|fields| - 1], fields[|fields| - 1];
      UnrepeatedIsPart(init);
      PartIsWhole([last]);
      PartsJoin(Unrepeated(init), [last], init, [last]);
      PartsJoin(Unrepeated(init), [], init, [last]);
      assert init + [last] == fields;
      assert Unrepeated(init) + [] == Unrepeated(init);
    }
  }

  function MissingOf(u: Understanding): seq<Field> {
    if u.parsed.Some? then u.parsed.value.missingFields else []
  }

  lemma LowFieldsInOrder(u: Understanding, th: Thresholds, keyFields: seq<Field>)
    ensures IsPartOf(LowFields(u, th, keyFields), keyFields + MissingOf(u))
  {
    hide IsPartOf, Unrepeated, AtLevel, OnlyIn;
    var low, missing := AtLevel(u, th, keyFields, Low), ParserMissing(u, keyFields);
    ListsAreParts(u, th, keyFields, Low, keyFields, {});
    ListsAreParts(u, th, MissingOf(u), Low, keyFields, {});
    PartIsWhole([]);
    UnrepeatedIsPart(low + missing);
    PartsJoin(low, missing, keyFields, MissingOf(u));
    PartOfPart(LowFields(u, th, keyFields), low + missing, keyFields + MissingOf(u));
  }

  /**
   * The fields an answer names stand in the order of the needed fields; in a
   * question those that only the parser misses follow in its order.
   */
  lemma NamesInOrder(u: Understanding, rev: Option<ActiveRevision>, th: Thresholds, pref: Preference, risk: Risk)
    ensures var d := Decide(u, rev, th, pref, risk);
            && IsPartOf(d.editable, RequiredFields(u, rev) + MissingOf(u))
            && (d.mode != AskMissingFields || IsBlocked(rev) ==> IsPartOf(d.editable, RequiredFields(u, rev)))
  {
    var keyFields := RequiredFields(u, rev);
    DecisionLists(u, rev, th, pref, risk);
    NothingIsPart(keyFields);
    hide *;
    LowFieldsInOrder(u, th, keyFields);
    ListsAreParts(u, th, keyFields, Medium, keyFields, {});
    PartIsWhole(keyFields);
    if rev.Some? {
      OfferedInOrder(u, th, rev.value, keyFields);
    }
    var d := Decide(u, rev, th, pref, risk);
    if d.mode != AskMissingFields || IsBlocked(rev) {
      NothingIsPart(MissingOf(u));
      PartsJoin(d.editable, [], keyFields, MissingOf(u));
      assert d.editable + [] == d.editable;
    }
  }

  lemma NothingIsPart(xs: seq<Field>)
    ensures IsPartOf([], xs)
  {}

  lemma OfferedInOrder(u: Understanding, th: Thresholds, rev: ActiveRevision, keyFields: seq<Field>)
    ensures IsPartOf(EditableFromRevision(rev, keyFields), keyFields)
  {
    hide IsPartOf, InSet;
    PartIsWhole(keyFields);
    if rev.spec.Some? {
      ListsAreParts(u, th, keyFields, Low, keyFields, rev.spec.value.keys);
    }
  }

  // ---- Better scores, better answers -------------------------------------------------------------------------

  /** ask_missing_fields < show_revision, confirm_understanding < execute_now */
  function Rank(m: Mode): nat {
    match m
    case AskMissingFields => 0
    case ChatReply => 1
    case ShowRevision => 1
    case ConfirmUnderstanding => 1
    case ExecuteNow => 2
  }

  /** The same message, with no field's score lower. */
  ghost predicate NoScoreLower(u: Understanding, v: Understanding) {
    v.intent == u.intent && v.parsed == u.parsed && forall f :: ScoreOf(u, f) <= ScoreOf(v, f)
  }

  /** Higher scores never demote the decision, whatever the thresholds. */
  lemma BetterScoresNeverDemote(u: Understanding, v: Understanding, rev: Option<ActiveRevision>, th: Thresholds,
                                pref: Preference, risk: Risk)
    requires NoScoreLower(u, v)
    ensures Rank(Decide(u, rev, th, pref, risk).mode) <= Rank(Decide(v, rev, th, pref, risk).mode)
  {
    var keyFields := RequiredFields(u, rev);
    assert RequiredFields(v, rev) == keyFields;
    LowStaysEmpty(u, v, th, keyFields);
    hide RequiredFields, LowFields, AtLevel;
  }

  lemma LowStaysEmpty(u: Understanding, v: Understanding, th: Thresholds, keyFields: seq<Field>)
    requires NoScoreLower(u, v)
    ensures LowFields(u, th, keyFields) == [] ==> LowFields(v, th, keyFields) == []
    ensures (LowFields(u, th, keyFields) == [] && AtLevel(u, th, keyFields, Medium) == []) ==>
              AtLevel(v, th, keyFields, Medium) == []
  {
    LowFieldsExactly(u, th, keyFields);
    LowFieldsExactly(v, th, keyFields);
    var lowU, lowV := LowFields(u, th, keyFields), LowFields(v, th, keyFields);
    var mediumU, mediumV := AtLevel(u, th, keyFields, Medium), AtLevel(v, th, keyFields, Medium);
    hide LowFields;
    if lowV != [] {
      var f := lowV[0];
      assert f in lowV;
      assert ScoreOf(u, f) <= ScoreOf(v, f);
      assert f in lowU;
    }
    if mediumV != [] && lowU == [] {
      var f := mediumV[0];
      assert f in mediumV;
      assert ScoreOf(u, f) <= ScoreOf(v, f);
      assert f !in lowU;
      assert f in mediumU;
    }
  }

  /** Every field's confidence adjusted by its history. */
  function Adjusted(u: Understanding, features: map<Field, Features>, th: Thresholds): Understanding {
    u.(confidences := map f | f in u.confidences ::
         WithHistory(u.confidences[f], if f in features then features[f] else NO_HISTORY, th))
  }

  /** Taking history into account never demotes the decision. */
  lemma HistoryNeverDemotes(u: Understanding, features: map<Field, Features>, rev: Option<ActiveRevision>, th: Thresholds,
                            pref: Preference, risk: Risk)
    ensures Rank(Decide(u, rev, th, pref, risk).mode)
         <= Rank(Decide(Adjusted(u, features, th), rev, th, pref, risk).mode)
  {
    var v := Adjusted(u, features, th);
    forall f
      ensures ScoreOf(u, f) <= ScoreOf(v, f)
    {
      if f in u.confidences {
        HistoryOnlyAdds(u.confidences[f], if f in features then features[f] else NO_HISTORY, th);
      }
    }
    hide Decide, WithHistory;
    BetterScoresNeverDemote(u, v, rev, th, pref, risk);
  }

  /** One more revision that repeats a value already seen never demotes the decision either. */
  lemma RepeatingNeverDemotes(u: Understanding, features: map<Field, Features>, f: Field, entries: seq<Entry>, at: nat,
                              e: Entry, rev: Option<ActiveRevision>, th: Thresholds, pref: Preference, risk: Risk)
    requires at <= |entries| && e.revisionNumber.Some? && e.value in Values(entries)
    ensures var before := Adjusted(u, features[f := FeaturesOf(entries)], th);
            var after := Adjusted(u, features[f := FeaturesOf(Recorded(entries, at, e))], th);
            Rank(Decide(before, rev, th, pref, risk).mode) <= Rank(Decide(after, rev, th, pref, risk).mode)
  {
    var before := Adjusted(u, features[f := FeaturesOf(entries)], th);
    var after := Adjusted(u, features[f := FeaturesOf(Recorded(entries, at, e))], th);
    forall x
      ensures ScoreOf(before, x) <= ScoreOf(after, x)
    {
      if x == f && f in u.confidences {
        var c := u.confidences[f];
        var parser := OrElse(MaxWeight(c.evidence, true), c.score * 0.5);
        var signal := RealMax(OrElse(MaxWeight(c.evidence, false), c.score), c.score);
        RepeatingNeverLowers(parser, signal, entries, at, e);
      }
    }
    hide Decide, WithHistory;
    BetterScoresNeverDemote(before, after, rev, th, pref, risk);
  }
}
