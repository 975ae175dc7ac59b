/**
 * History-weighted confidence in a task field: session_memory_confidence.py and
 * the adjustment in understanding.py. Scores are real numbers.
 */
module Confidence {
  import opened Results

  /** One recorded revision of a field: its number, if it has one, and the value as `repr` prints it. */
  datatype Entry = Entry(revisionNumber: Option<nat>, value: string)

  datatype Features = Features(
    corrections: nat, accepted: nat, contradictions: nat, ignored: nat, lastConfirmed: Option<nat>)

  const NO_HISTORY := Features(0, 0, 0, 0, None)

  datatype Level = Low | Medium | High

  datatype Thresholds = Thresholds(medium: real, high: real)

  // ---- build_history_features ------------------------------------------------------------------------

  function Values(entries: seq<Entry>): set<string> {
    set e | e in entries :: e.value
  }

  function SortKey(e: Entry): nat {
    if e.revisionNumber.Some? then e.revisionNumber.value else 0
  }

  function Newer(a: Entry, b: Entry): Entry {
    if SortKey(a) >= SortKey(b) then a else b
  }

  /** The entry a stable sort by descending revision number puts first. */
  function Newest(entries: seq<Entry>): Entry
    requires entries != []
  {
    if |entries| == 1 then entries[0] else Newer(entries[0], Newest(entries[1..]))
  }

  function FeaturesOf(entries: seq<Entry>): Features {
    if entries == [] then NO_HISTORY
    else
      assert entries[0].value in Values(entries);
      Features(|entries| - 1, |entries|, |Values(entries)| - 1, 0, Newest(entries).revisionNumber)
  }

  /** One turn of the loop of build_history_features: fields without entries get no features. */
  method BuildHistoryFeatures(names: seq<string>, history: map<string, seq<Entry>>) returns (features: map<string, Features>)
    requires forall n :: n in names ==> n in history
    ensures forall n :: n in features <==> n in names && history[n] != []
    ensures forall n :: n in features ==> features[n] == FeaturesOf(history[n])
  {
    features := map[];
    for i := 0 to |names|
      invariant forall n :: n in features <==> n in names[..i] && history[n] != []
      invariant forall n :: n in features ==> features[n] == FeaturesOf(history[n])
    {
      var entries := history[names[i]];
      if entries != [] {
        features := features[names[i] := FeaturesOf(entries)];
      }
      assert names[..i + 1] == names[..i] + [names[i]];
    }
    assert names[..|names|] == names;
  }

  // ---- compute_field_confidence ------------------------------------------------------------------------

  /** min(count, 4) */
  function Capped(n: nat): real {
    if n < 4 then n as real else 4.0
  }

  /** The weighted sum before it is bounded. */
  function RawScore(parser: real, signal: real, f: Features): real {
    parser * 0.45 + signal * 0.35
    + Capped(f.accepted) * 0.08 + Capped(f.corrections) * 0.04
    - Capped(f.contradictions) * 0.07 - Capped(f.ignored) * 0.04
    + if f.lastConfirmed.Some? then 0.02 else 0.0
  }

  function Bounded(x: real): (r: real)
    ensures 0.0 <= r <= 1.0
    ensures 0.0 <= x <= 1.0 ==> r == x
  {
    if x < 0.0 then 0.0 else if x > 1.0 then 1.0 else x
  }

  function Score(parser: real, signal: real, f: Features): real {
    Bounded(RawScore(parser, signal, f))
  }

  function LevelOf(th: Thresholds, score: real): Level {
    if score >= th.high then High else if score >= th.medium then Medium else Low
  }

  /** compute_field_confidence, adding up the score term by term. */
  method ComputeFieldConfidence(parser: real, signal: real, f: Features, th: Thresholds) returns (score: real, level: Level)
    ensures score == Score(parser, signal, f) && level == LevelOf(th, score)
    ensures 0.0 <= score <= 1.0
  {
    score := parser * 0.45 + signal * 0.35;
    score := score + Capped(f.accepted) * 0.08;
    score := score + Capped(f.corrections) * 0.04;
    score := score - Capped(f.contradictions) * 0.07;
    score := score - Capped(f.ignored) * 0.04;
    if f.lastConfirmed.Some? {
      score := score + 0.02;
    }
    score := if score < 1.0 then score else 1.0;
    score := if score > 0.0 then score else 0.0;
    if score >= th.high {
      level := High;
    } else if score >= th.medium {
      level := Medium;
    } else {
      level := Low;
    }
  }

  /**
   * What each ingredient is worth: parser and signal count in proportion, a field
   * accepted or corrected adds up to four times, a contradiction or an ignored
   * suggestion takes away up to four times, a confirmation adds a little.
   */
  lemma WeightsExactly(parser: real, signal: real, f: Features, p: real, q: real)
    ensures RawScore(parser + p, signal, f) == RawScore(parser, signal, f) + 0.45 * p
    ensures RawScore(parser, signal + q, f) == RawScore(parser, signal, f) + 0.35 * q
    ensures RawScore(0.0, 0.0, NO_HISTORY) == 0.0
    ensures RawScore(parser, signal, f.(accepted := f.accepted + 1))
         == RawScore(parser, signal, f) + if f.accepted < 4 then 0.08 else 0.0
    ensures RawScore(parser, signal, f.(corrections := f.corrections + 1))
         == RawScore(parser, signal, f) + if f.corrections < 4 then 0.04 else 0.0
    ensures RawScore(parser, signal, f.(contradictions := f.contradictions + 1))
         == RawScore(parser, signal, f) - if f.contradictions < 4 then 0.07 else 0.0
    ensures RawScore(parser, signal, f.(ignored := f.ignored + 1))
         == RawScore(parser, signal, f) - if f.ignored < 4 then 0.04 else 0.0
    ensures var without := RawScore(parser, signal, f.(lastConfirmed := None));
            forall n :: RawScore(parser, signal, f.(lastConfirmed := Some(n))) == without + 0.02
  {
    CappedGrows(f.accepted);
    CappedGrows(f.corrections);
    CappedGrows(f.contradictions);
    CappedGrows(f.ignored);
    hide Capped;
  }

  lemma CappedGrows(n: nat)
    ensures Capped(n + 1) == Capped(n) + if n < 4 then 1.0 else 0.0
    ensures Capped(0) == 0.0
  {}

  /** The confidence is the sum, or the bound it lies beyond. */
  lemma ScoreIsBounded(parser: real, signal: real, f: Features)
    ensures var raw := RawScore(parser, signal, f);
            && (0.0 <= raw <= 1.0 ==> Score(parser, signal, f) == raw)
            && (raw < 0.0 ==> Score(parser, signal, f) == 0.0)
            && (raw > 1.0 ==> Score(parser, signal, f) == 1.0)
  {
    hide RawScore;
  }

  // ---- One more revision -----------------------------------------------------------------------------------

  /** A numbered revision recorded at any place of the history. */
  function Recorded(entries: seq<Entry>, at: nat, e: Entry): seq<Entry>
    requires at <= |entries|
  {
    entries[..at] + [e] + entries[at..]
  }

  lemma RecordedValues(entries: seq<Entry>, at: nat, e: Entry)
    requires at <= |entries|
    ensures Values(Recorded(entries, at, e)) == Values(entries) + {e.value}
  {
    var more := Recorded(entries, at, e);
    assert entries == entries[..at] + entries[at..];
    forall x
      ensures x in more <==> x in entries || x == e
    {
    }
    forall v
      ensures v in Values(more) <==> v in Values(entries) + {e.value}
    {
    }
  }

  lemma {:induction false} NewestOfJoin(a: seq<Entry>, b: seq<Entry>)
    requires a != [] && b != []
    ensures Newest(a + b) == Newer(Newest(a), Newest(b))
  {
    assert (a + b)[0] == a[0];
    if |a| == 1 {
      assert (a + b)[1..] == b;
    } else {
      NewestOfJoin(a[1..], b);
      assert (a + b)[1..] == a[1..] + b;
    }
  }

  /** Recording a numbered revision never takes the last confirmed number away. */
  lemma StaysConfirmed(entries: seq<Entry>, at: nat, e: Entry)
    requires at <= |entries| && e.revisionNumber.Some?
    ensures (entries != [] && Newest(entries).revisionNumber.Some?) ==>
              Newest(Recorded(entries, at, e)).revisionNumber.Some?
    ensures entries == [] ==> Newest(Recorded(entries, at, e)).revisionNumber.Some?
  {
    var a, b := entries[..at], entries[at..];
    assert a + b == entries;
    assert Newest([e]) == e;
    if a != [] {
      NewestOfJoin(a, [e]);
    } else {
      assert a + [e] == [e];
    }
    if b != [] {
      NewestOfJoin(a + [e], b);
    } else {
      assert a + [e] + b == a + [e];
    }
    if a != [] && b != [] {
      NewestOfJoin(a, b);
    } else if a != [] {
      assert a == entries;
    } else {
      assert b == entries;
    }
  }

  /** The last confirmed number is that of the first entry with the greatest number, no number counting as zero. */
  lemma {:induction false} NewestExactly(entries: seq<Entry>)
    requires entries != []
    ensures exists k :: IsNewest(entries, k) && Newest(entries) == entries[k]
  {
    if |entries| == 1 {
      assert IsNewest(entries, 0);
    } else {
      var rest := entries[1..];
      NewestExactly(rest);
      var k :| IsNewest(rest, k) && Newest(rest) == rest[k];
      assert forall i :: 0 < i < |entries| ==> entries[i] == rest[i - 1];
      assert IsNewest(entries, if SortKey(entries[0]) >= SortKey(rest[k]) then 0 else k + 1);
    }
  }

  predicate IsNewest(entries: seq<Entry>, k: int) {
    && 0 <= k < |entries|
    && (forall i :: 0 <= i < k ==> SortKey(entries[i]) < SortKey(entries[k]))
    && (forall i :: k < i < |entries| ==> SortKey(entries[i]) <= SortKey(entries[k]))
  }

  /** How the counts move when a numbered revision is recorded. */
  lemma RecordedFeatures(entries: seq<Entry>, at: nat, e: Entry)
    requires at <= |entries| && e.revisionNumber.Some?
    ensures var f, g := FeaturesOf(entries), FeaturesOf(Recorded(entries, at, e));
            && g.accepted == f.accepted + 1 && g.ignored == f.ignored == 0
            && g.corrections == f.accepted
            && (entries != [] ==> f.corrections == f.accepted - 1)
            && g.contradictions == (if entries == [] || e.value in Values(entries) then f.contradictions
                                    else f.contradictions + 1)
            && (f.lastConfirmed.Some? ==> g.lastConfirmed.Some?)
            && (entries == [] ==> g.lastConfirmed.Some?)
  {
    RecordedValues(entries, at, e);
    StaysConfirmed(entries, at, e);
    if entries == [] {
      assert Values(entries) == {} && Values(Recorded(entries, at, e)) == {e.value};
    } else if e.value in Values(entries) {
      assert Values(entries) + {e.value} == Values(entries);
    }
  }

  /** A further revision that repeats a value already seen never lowers the confidence. */
  lemma RepeatingNeverLowers(parser: real, signal: real, entries: seq<Entry>, at: nat, e: Entry)
    requires at <= |entries| && e.revisionNumber.Some? && e.value in Values(entries)
    ensures Score(parser, signal, FeaturesOf(Recorded(entries, at, e))) >= Score(parser, signal, FeaturesOf(entries))
  {
    RecordedFeatures(entries, at, e);
    hide FeaturesOf;
  }

  /**
   * A revision with a new value lowers the sum exactly once the reward for
   * another revision is used up, after four of them, and the penalty is not.
   */
  lemma NewValueLowersSum(parser: real, signal: real, entries: seq<Entry>, at: nat, e: Entry)
    requires at <= |entries| && e.revisionNumber.Some? && e.value !in Values(entries)
    ensures RawScore(parser, signal, FeaturesOf(Recorded(entries, at, e))) < RawScore(parser, signal, FeaturesOf(entries))
       <==> |entries| >= 4 && |Values(entries)| <= 4
  {
    RecordedFeatures(entries, at, e);
    if entries != [] {
      assert entries[0].value in Values(entries);
    }
    assert FeaturesOf(entries).accepted == |entries|;
    assert entries != [] ==> FeaturesOf(entries).contradictions == |Values(entries)| - 1;
    hide FeaturesOf;
  }

  /**
   * A revision with a new value lowers the confidence exactly from the fifth
   * entry on, while at most four values have been seen, unless both sums lie
   * beyond the same bound.
   */
  lemma NewValueLowersExactly(parser: real, signal: real, entries: seq<Entry>, at: nat, e: Entry)
    requires at <= |entries| && e.revisionNumber.Some? && e.value !in Values(entries)
    ensures var before, after := FeaturesOf(entries), FeaturesOf(Recorded(entries, at, e));
            (Score(parser, signal, after) < Score(parser, signal, before)) ==
            (&& |entries| >= 4 && |Values(entries)| <= 4
             && RawScore(parser, signal, before) > 0.0 && RawScore(parser, signal, after) < 1.0)
  {
    NewValueLowersSum(parser, signal, entries, at, e);
    hide FeaturesOf, RawScore, Values;
  }

  /** Four revisions that agree, and a fifth that does not. */
  function ChangeOfMind(value: string, other: string): seq<Entry> {
    [Entry(Some(1), value), Entry(Some(2), value), Entry(Some(3), value), Entry(Some(4), value), Entry(Some(5), other)]
  }

  /** The confidence falls from 0.86 to 0.83. */
  lemma ChangeOfMindLowers(value: string, other: string)
    requires value != other
    ensures var history := ChangeOfMind(value, other);
            && Score(0.5, 0.5, FeaturesOf(history[..4])) == 0.86
            && Score(0.5, 0.5, FeaturesOf(history)) == 0.83
  {
    var history := ChangeOfMind(value, other);
    var before, e := history[..4], history[4];
    assert history == Recorded(before, 4, e);
    assert Values(before) == {value} by {
      assert before[0].value in Values(before);
    }
    RecordedFeatures(before, 4, e);
    NewestOfFour(value);
    assert before == [history[0], history[1], history[2], history[3]];
    assert FeaturesOf(before) == Features(3, 4, 0, 0, Some(4));
    assert FeaturesOf(history).contradictions == 1 && FeaturesOf(history).lastConfirmed.Some?;
    hide FeaturesOf;
  }

  lemma NewestOfFour(value: string)
    ensures Newest([Entry(Some(1), value), Entry(Some(2), value), Entry(Some(3), value), Entry(Some(4), value)])
         == Entry(Some(4), value)
  {
    var a, b, c, d := Entry(Some(1), value), Entry(Some(2), value), Entry(Some(3), value), Entry(Some(4), value);
    assert [a, b, c, d][1..] == [b, c, d] && [b, c, d][1..] == [c, d] && [c, d][1..] == [d];
    assert Newest([d]) == d;
    assert Newest([c, d]) == d;
    assert Newest([b, c, d]) == d;
  }

  // ---- _apply_history_confidence ---------------------------------------------------------------------------

  datatype Evidence = Evidence(fromParser: bool, weight: real)

  datatype FieldConfidence = FieldConfidence(score: real, level: Level, evidence: seq<Evidence>)

  function RealMax(a: real, b: real): real {
    if a >= b then a else b
  }

  /** The greatest weight among the parser's evidence, or among the rest. */
  function MaxWeight(evidence: seq<Evidence>, fromParser: bool): Option<real> {
    if evidence == [] then None
    else
      var rest := MaxWeight(evidence[1..], fromParser);
      if evidence[0].fromParser != fromParser then rest
      else if rest.Some? then Some(RealMax(evidence[0].weight, rest.value))
      else Some(evidence[0].weight)
  }

  function OrElse(x: Option<real>, default: real): real {
    if x.Some? then x.value else default
  }

  function WithHistory(c: FieldConfidence, f: Features, th: Thresholds): FieldConfidence {
    var parser := OrElse(MaxWeight(c.evidence, true), c.score * 0.5);
    var signal := RealMax(OrElse(MaxWeight(c.evidence, false), c.score), c.score);
    var score := RealMax(c.score, Score(parser, signal, f));
    FieldConfidence(score, LevelOf(th, score), c.evidence + [Evidence(false, f.accepted as real)])
  }

  function LevelRank(l: Level): nat {
    match l
    case Low => 0
    case Medium => 1
    case High => 2
  }

  /** A better score never has a lower level, whatever the two thresholds are. */
  lemma LevelIsMonotone(th: Thresholds, a: real, b: real)
    requires a <= b
    ensures LevelRank(LevelOf(th, a)) <= LevelRank(LevelOf(th, b))
  {}

  /** History only adds: the adjusted score is no lower, stays within bounds, and its level fits it. */
  lemma HistoryOnlyAdds(c: FieldConfidence, f: Features, th: Thresholds)
    ensures var d := WithHistory(c, f, th);
            && d.score >= c.score
            && (0.0 <= c.score <= 1.0 ==> 0.0 <= d.score <= 1.0)
            && d.level == LevelOf(th, d.score)
            && (c.level == LevelOf(th, c.score) ==> LevelRank(d.level) >= LevelRank(c.level))
  {
    hide RawScore, MaxWeight;
    LevelIsMonotone(th, c.score, WithHistory(c, f, th).score);
  }

  /** The weights of the parser's evidence, or of the rest; without any, the given one stands for them. */
  ghost predicate IsWeight(evidence: seq<Evidence>, fromParser: bool, default: real, w: real) {
    || Weighs(evidence, fromParser, w)
    || (w == default && forall i :: 0 <= i < |evidence| ==> evidence[i].fromParser != fromParser)
  }

  ghost predicate Weighs(evidence: seq<Evidence>, fromParser: bool, w: real) {
    exists i :: 0 <= i < |evidence| && evidence[i].fromParser == fromParser && evidence[i].weight == w
  }

  lemma {:induction false} GreatestWeight(evidence: seq<Evidence>, fromParser: bool)
    ensures var m := MaxWeight(evidence, fromParser);
            && (m.None? <==> forall i :: 0 <= i < |evidence| ==> evidence[i].fromParser != fromParser)
            && (m.Some? ==> Weighs(evidence, fromParser, m.value))
            && forall w :: Weighs(evidence, fromParser, w) ==> m.Some? && w <= m.value
  {
    if evidence != [] {
      var rest := evidence[1..];
      GreatestWeight(rest, fromParser);
      var m := MaxWeight(rest, fromParser);
      if m.Some? {
        var i :| 0 <= i < |rest| && rest[i].fromParser == fromParser && rest[i].weight == m.value;
        assert evidence[i + 1] == rest[i];
      }
      forall w | Weighs(evidence, fromParser, w) && !(evidence[0].fromParser == fromParser && evidence[0].weight == w)
        ensures Weighs(rest, fromParser, w)
      {
        var i :| 0 <= i < |evidence| && evidence[i].fromParser == fromParser && evidence[i].weight == w;
        assert rest[i - 1] == evidence[i];
      }
    }
  }

  /** A weight of the parser, with a weight of the other evidence or the score so far. */
  ghost predicate Considered(c: FieldConfidence, p: real, q: real) {
    IsWeight(c.evidence, true, c.score * 0.5, p) && (q == c.score || Weighs(c.evidence, false, q))
  }

  /**
   * The adjusted confidence is the greatest of the score so far and the scores that
   * any weight of the parser, half the score if it gave none, and any other weight
   * or the score itself, give with the history.
   */
  lemma AdjustedIsGreatest(c: FieldConfidence, f: Features, th: Thresholds)
    ensures var d := WithHistory(c, f, th);
            && d.score >= c.score
            && (forall p, q :: Considered(c, p, q) ==> d.score >= Score(p, q, f))
            && (d.score == c.score || exists p, q :: Considered(c, p, q) && d.score == Score(p, q, f))
  {
    GreatestWeight(c.evidence, true);
    GreatestWeight(c.evidence, false);
    var parser := OrElse(MaxWeight(c.evidence, true), c.score * 0.5);
    var signal := RealMax(OrElse(MaxWeight(c.evidence, false), c.score), c.score);
    hide MaxWeight, Score, Weighs;
    assert Considered(c, parser, signal);
    forall p, q | Considered(c, p, q)
      ensures Score(p, q, f) <= Score(parser, signal, f)
    {
      assert p <= parser && q <= signal;
      ScoreIsMonotone(p, q, parser, signal, f);
    }
  }

  lemma ScoreIsMonotone(p: real, q: real, r: real, s: real, f: Features)
    requires p <= r && q <= s
    ensures Score(p, q, f) <= Score(r, s, f)
  {
    WeightsExactly(p, q, f, r - p, 0.0);
    WeightsExactly(r, q, f, 0.0, s - q);
    hide RawScore;
  }
}
