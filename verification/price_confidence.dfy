/**
 * The open-price confidence service: the first price of the day is recorded
 * as the open (first write wins) together with how well the day's baseline
 * predicted it — a score from 0 to 100, a level, and the open's position in
 * the predicted low–high range.
 *
 * Scores and positions are exact reals; the service's rounding of them for
 * storage is not modelled.
 */
module PriceConfidence {
  import opened Wrappers
  import PyNum

  datatype ConfidenceLevel = VeryHigh | High | Medium | Low | VeryLow

  /** A level's place in the order VERY_LOW < LOW < MEDIUM < HIGH < VERY_HIGH. */
  function Rank(l: ConfidenceLevel): (r: int)
    ensures 0 <= r <= 4
  {
    match l
    case VeryLow => 0
    case Low => 1
    case Medium => 2
    case High => 3
    case VeryHigh => 4
  }

  /** `_get_confidence_level`: thresholds 90, 70, 30 and 10, each inclusive. */
  function LevelOf(score: real): (l: ConfidenceLevel)
    ensures l == VeryHigh <==> score >= 90.0
    ensures l == High <==> 70.0 <= score < 90.0
    ensures l == Medium <==> 30.0 <= score < 70.0
    ensures l == Low <==> 10.0 <= score < 30.0
    ensures l == VeryLow <==> score < 10.0
  {
    if score >= 90.0 then VeryHigh
    else if score >= 70.0 then High
    else if score >= 30.0 then Medium
    else if score >= 10.0 then Low
    else VeryLow
  }

  /** A higher score never gives a lower level. */
  lemma LevelIsMonotone(a: real, b: real)
    requires a <= b
    ensures Rank(LevelOf(a)) <= Rank(LevelOf(b))
  {
  }

  /**
   * The accuracy part of the score, from the open's distance to the decision
   * price in percent of it: 100 within 1 %, then falling piecewise linearly
   * to 10 at 10 %, then half a point per percent down to 0.
   */
  function AccuracyScore(diffRatio: real): (r: real)
    ensures 0.0 <= r <= 100.0
    ensures r == 100.0 <==> diffRatio <= 1.0
    ensures diffRatio > 1.0 ==> r <= 90.0
    ensures r == 0.0 <==> diffRatio >= 30.0
  {
    if diffRatio <= 1.0 then 100.0
    else if diffRatio <= 3.0 then 90.0 - (diffRatio - 1.0) * 10.0
    else if diffRatio <= 5.0 then 70.0 - (diffRatio - 3.0) * 15.0
    else if diffRatio <= 10.0 then 40.0 - (diffRatio - 5.0) * 6.0
    else PyNum.MaxReal(0.0, 10.0 - (diffRatio - 10.0) * 0.5)
  }

  /** A larger miss never earns a higher accuracy score. */
  lemma AccuracyNeverRisesWithTheMiss(a: real, b: real)
    requires a <= b
    ensures AccuracyScore(b) <= AccuracyScore(a)
  {
  }

  /** The range part of the score: 100, 80, 60 or 40 as the miss grows past 50 %, 100 % and 200 % of half the range. */
  function RangeScore(rangeRatio: real): (r: real)
    ensures r == 100.0 <==> rangeRatio <= 50.0
    ensures r == 80.0 <==> 50.0 < rangeRatio <= 100.0
    ensures r == 60.0 <==> 100.0 < rangeRatio <= 200.0
    ensures r == 40.0 <==> rangeRatio > 200.0
  {
    if rangeRatio <= 50.0 then 100.0
    else if rangeRatio <= 100.0 then 80.0
    else if rangeRatio <= 200.0 then 60.0
    else 40.0
  }

  /** The position part of the score: 100 at the middle of the range, 0 at either end. */
  function PositionScore(position: real): (r: real)
    ensures 0.0 <= position <= 1.0 ==> 0.0 <= r <= 100.0
    ensures r == 100.0 <==> position == 0.5
    ensures r == 0.0 <==> position == 0.0 || position == 1.0
  {
    (1.0 - PyNum.AbsReal(position - 0.5) * 2.0) * 100.0
  }

  /** Mirrored positions score alike. */
  lemma PositionScoreIsSymmetric(position: real)
    ensures PositionScore(1.0 - position) == PositionScore(position)
  {
  }

  /**
   * `_calculate_confidence_score`: half accuracy, three tenths position and
   * a fifth range, clamped to [0, 100].
   */
  function ConfidenceScore(diffRatio: real, rangeRatio: real, position: real): (r: real)
    ensures 0.0 <= r <= 100.0
    ensures var s := AccuracyScore(diffRatio) * 0.5 + PositionScore(position) * 0.3 + RangeScore(rangeRatio) * 0.2;
            (0.0 <= s <= 100.0 ==> r == s) && (s > 100.0 ==> r == 100.0) && (s < 0.0 ==> r == 0.0)
  {
    var s := AccuracyScore(diffRatio) * 0.5 + PositionScore(position) * 0.3 + RangeScore(rangeRatio) * 0.2;
    PyNum.MaxReal(0.0, PyNum.MinReal(100.0, s))
  }

  /** A perfect prediction inside a range where the open sits in the middle scores 100. */
  lemma PerfectPredictionScoresFull()
    ensures ConfidenceScore(0.0, 0.0, 0.5) == 100.0
    ensures LevelOf(ConfidenceScore(0.0, 0.0, 0.5)) == VeryHigh
  {
  }

  /** The open's position in [low, high]: 0 at or below the low, 1 at or above the high. */
  function PositionInRange(open: int, low: int, high: int): (p: real)
    requires high > low
    ensures 0.0 <= p <= 1.0
    ensures p == 0.0 <==> open <= low
    ensures p == 1.0 <==> open >= high
    ensures low <= open <= high ==> p * (high - low) as real == (open - low) as real
  {
    if open <= low then 0.0
    else if open >= high then 1.0
    else
      var range := (high - low) as real;
      PyNum.DivFacts((open - low) as real, range);
      PyNum.RatioAtMost((open - low) as real, range, 0.0);
      PyNum.RatioAtLeast((open - low) as real, range, 1.0);
      (open - low) as real / range
  }

  /** A higher open never sits lower in the range. */
  lemma PositionIsMonotone(a: int, b: int, low: int, high: int)
    requires high > low && a <= b
    ensures PositionInRange(a, low, high) <= PositionInRange(b, low, high)
  {
    var range := (high - low) as real;
    if low < a && b < high {
      PyNum.DivFacts((b - low) as real, range);
      PyNum.RatioAtMost((a - low) as real, range, (b - low) as real / range);
    }
  }

  datatype Analysis = Analysis(score: real, level: ConfidenceLevel, position: real)

  /** What the analysis gives for a bad range or a division by zero. */
  const Fallback := Analysis(0.0, VeryLow, 0.5)

  /**
   * `_analyze_confidence`: the fallback for a range of zero or less; the
   * fallback too when the decision price, the low or the open is zero, since
   * the detail ratios divide by each and the error is caught; otherwise the
   * score of the open's miss against the decision price (in percent of it)
   * and against half the range, and its position.
   */
  function AnalyzeConfidence(open: int, decision: int, low: int, high: int): (r: Analysis)
    ensures high - low <= 0 || decision == 0 || low == 0 || open == 0 ==> r == Fallback
    ensures high - low > 0 && decision != 0 && low != 0 && open != 0 ==>
              r.position == PositionInRange(open, low, high)
              && 0.0 <= r.score <= 100.0 && r.level == LevelOf(r.score)
    ensures high - low > 0 && decision > 0 && low != 0 && open != 0 ==>
              var ratio := PyNum.Abs(open - decision) as real / decision as real * 100.0;
              (AccuracyScore(ratio) == 100.0 <==> 100 * PyNum.Abs(open - decision) <= decision)
  {
    var range := high - low;
    if range <= 0 || decision == 0 || low == 0 || open == 0 then Fallback
    else
      var position := PositionInRange(open, low, high);
      var diff := PyNum.Abs(open - decision) as real;
      var diffRatio := diff / decision as real * 100.0;
      var rangeRatio := diff / (range as real / 2.0) * 100.0;
      var score := ConfidenceScore(diffRatio, rangeRatio, position);
      WithinOnePercent(open, decision);
      Analysis(score, LevelOf(score), position)
  }

  /** On a positive decision price, a miss of at most 1 % is `100 * |open - decision| <= decision`. */
  lemma WithinOnePercent(open: int, decision: int)
    ensures decision > 0 ==>
              var ratio := PyNum.Abs(open - decision) as real / decision as real * 100.0;
              (ratio <= 1.0 <==> 100 * PyNum.Abs(open - decision) <= decision)
  {
    if decision > 0 {
      PyNum.RatioAtMost(PyNum.Abs(open - decision) as real, decision as real, 0.01);
    }
  }

  /** The recorded open with the baseline it was judged against. */
  datatype OpenPriceData = OpenPriceData(
    stockCode: string,
    openPrice: int,
    decisionPrice: int,
    lowPrice: int,
    highPrice: int,
    recordedTime: real,
    analysis: Analysis)

  /**
   * `record_open_price`: an existing record for the code is returned as it
   * is and nothing is written; otherwise the current price becomes the open
   * and the analysed record is stored.
   */
  function RecordOpenPrice(store: map<string, OpenPriceData>, code: string, current: int,
                           decision: int, low: int, high: int, now: real): (r: (OpenPriceData, map<string, OpenPriceData>))
    ensures code in store ==> r == (store[code], store)
    ensures code !in store ==>
              r.1 == store[code := r.0] && r.0.openPrice == current && r.0.stockCode == code
              && r.0.analysis == AnalyzeConfidence(current, decision, low, high)
  {
    if code in store then (store[code], store)
    else
      var data := OpenPriceData(code, current, decision, low, high, now, AnalyzeConfidence(current, decision, low, high));
      (data, store[code := data])
  }

  /** The first price recorded is the open for the rest of the day, whatever comes later. */
  lemma FirstWriteWins(store: map<string, OpenPriceData>, code: string, p1: int, p2: int,
                       d: int, l: int, h: int, d2: int, l2: int, h2: int, t1: real, t2: real)
    ensures var (first, s1) := RecordOpenPrice(store, code, p1, d, l, h, t1);
            var (second, s2) := RecordOpenPrice(s1, code, p2, d2, l2, h2, t2);
            second == first && s2 == s1
  {
  }

  datatype PositionBand = Bottom | LowerMiddle | Middle | UpperMiddle | Top

  /** The position wording of `_get_confidence_interpretation`: bands cut at 0.2, 0.4, 0.6 and 0.8. */
  function PositionBandOf(position: real): (b: PositionBand)
    ensures b == Bottom <==> position < 0.2
    ensures b == LowerMiddle <==> 0.2 <= position < 0.4
    ensures b == Middle <==> 0.4 <= position < 0.6
    ensures b == UpperMiddle <==> 0.6 <= position < 0.8
    ensures b == Top <==> position >= 0.8
  {
    if position < 0.2 then Bottom
    else if position < 0.4 then LowerMiddle
    else if position < 0.6 then Middle
    else if position < 0.8 then UpperMiddle
    else Top
  }

  /** The stored analysis of an open in the middle fifth of its range reads as the middle band. */
  lemma MiddleOpenReadsAsMiddle(open: int, low: int, high: int)
    requires high > low && 4 * (high - low) <= 10 * (open - low) < 6 * (high - low)
    ensures PositionBandOf(PositionInRange(open, low, high)) == Middle
  {
    var range := (high - low) as real;
    PyNum.RatioAtLeast((open - low) as real, range, 0.4);
    PyNum.RatioAtMost((open - low) as real, range, 0.6);
    PyNum.RatioAtLeast((open - low) as real, range, 0.6);
  }

  // ---------------------------------------------------------------------
  // Per-level statistics of all records
  // ---------------------------------------------------------------------

  /** The text of each level, which is what a summary carries. */
  function LevelText(l: ConfidenceLevel): (s: string)
    ensures |s| > 0
  {
    match l
    case VeryHigh => "매우 높음"
    case High => "높음"
    case Medium => "보통"
    case Low => "낮음"
    case VeryLow => "매우 낮음"
  }

  /** The enum name each statistics key is meant to be. */
  function LevelName(l: ConfidenceLevel): (s: string)
    ensures |s| > 0 && s[0] in "VHML" && s in StatKeys
  {
    match l
    case VeryHigh => "VERY_HIGH"
    case High => "HIGH"
    case Medium => "MEDIUM"
    case Low => "LOW"
    case VeryLow => "VERY_LOW"
  }

  /** The statistics keys, initialised to zero. */
  const StatKeys: set<string> := {"VERY_HIGH", "HIGH", "MEDIUM", "LOW", "VERY_LOW"}

  /** The meant keys are exactly the statistics keys, one per level. */
  lemma NamesAreTheKeys(l: ConfidenceLevel, m: ConfidenceLevel)
    ensures LevelName(l) in StatKeys
    ensures LevelName(l) == LevelName(m) ==> l == m
  {
  }

  /** `text.replace(' ', '_')`; upper-casing leaves Hangul as it is. */
  function Underscored(s: string): (r: string)
    ensures |r| == |s| && ' ' !in r
    ensures forall i :: 0 <= i < |s| ==> r[i] == (if s[i] == ' ' then '_' else s[i])
  {
    if |s| == 0 then "" else [if s[0] == ' ' then '_' else s[0]] + Underscored(s[1..])
  }

  /** The key the written code looks a level up under: its text, underscored and upper-cased. */
  function KeyAsWritten(l: ConfidenceLevel): (k: string)
    ensures k !in StatKeys
  {
    var k := Underscored(LevelText(l));
    assert k[0] == LevelText(l)[0];
    k
  }

  /**
   * The counting loop of `get_all_confidence_data`: each record adds one to
   * its key; a key outside the five raises a KeyError, which ends the call
   * in its error result.
   */
  function CountKeys(keys: seq<string>): (r: Result<map<string, nat>, string>)
    ensures r.Success? <==> forall i :: 0 <= i < |keys| ==> keys[i] in StatKeys
    ensures r.Success? ==> r.value.Keys == StatKeys && forall k :: k in StatKeys ==> r.value[k] == multiset(keys)[k]
  {
    if |keys| == 0 then Success(map k | k in StatKeys :: 0)
    else
      var init, last := keys[..|keys| - 1], keys[|keys| - 1];
      assert keys == init + [last];
      var rest := CountKeys(init);
      if rest.Failure? then rest
      else if last !in StatKeys then Failure("KeyError: " + last)
      else Success(rest.value[last := rest.value[last] + 1])
  }

  /** The key a record is counted under: as written, or as meant. */
  function KeyOf(l: ConfidenceLevel, written: bool): string
  {
    if written then KeyAsWritten(l) else LevelName(l)
  }

  /** The keys of a list of records, in order. */
  function KeysOf(levels: seq<ConfidenceLevel>, written: bool): (r: seq<string>)
    ensures |r| == |levels|
    ensures forall i :: 0 <= i < |levels| ==> r[i] == KeyOf(levels[i], written)
  {
    if |levels| == 0 then []
    else
      var init := levels[..|levels| - 1];
      assert forall i :: 0 <= i < |init| ==> init[i] == levels[i];
      KeysOf(init, written) + [KeyOf(levels[|levels| - 1], written)]
  }

  /** The statistics as written: any record at all makes the call fail. */
  function CountLevelsAsWritten(levels: seq<ConfidenceLevel>): (r: Result<map<string, nat>, string>)
    ensures |levels| > 0 ==> r.Failure?
    ensures |levels| == 0 ==> r.Success? && r.value.Keys == StatKeys && forall k :: k in StatKeys ==> r.value[k] == 0
  {
    CountKeys(KeysOf(levels, true))
  }

  /** The statistics as meant: keyed by the enum name, one count per level. */
  function CountLevels(levels: seq<ConfidenceLevel>): (r: Result<map<string, nat>, string>)
    ensures r.Success? && r.value.Keys == StatKeys
    ensures forall l :: r.value[LevelName(l)] == multiset(levels)[l]
  {
    var keys := KeysOf(levels, false);
    forall l | true
      ensures LevelName(l) in StatKeys && multiset(keys)[LevelName(l)] == multiset(levels)[l]
    {
      NamesAreTheKeys(l, l);
      NamesCount(levels, l);
    }
    CountKeys(keys)
  }

  /** Counting names counts levels, since no two levels share a name. */
  lemma {:induction false} NamesCount(levels: seq<ConfidenceLevel>, l: ConfidenceLevel)
    ensures multiset(KeysOf(levels, false))[LevelName(l)] == multiset(levels)[l]
    decreases |levels|
  {
    if |levels| > 0 {
      var init, last := levels[..|levels| - 1], levels[|levels| - 1];
      assert levels == init + [last];
      NamesCount(init, l);
      NamesAreTheKeys(l, last);
    }
  }

  /** A single VERY_HIGH record already makes the written counting fail, while the meant one counts it. */
  lemma OneRecordBreaksTheStatistics()
    ensures CountLevelsAsWritten([VeryHigh]).Failure?
    ensures CountLevels([VeryHigh]).value["VERY_HIGH"] == 1
  {
    assert multiset([VeryHigh])[VeryHigh] == 1;
    assert LevelName(VeryHigh) == "VERY_HIGH";
  }
  // ---------------------------------------------------------------------
  // The stored text
  // ---------------------------------------------------------------------

  /**
   * A record as `json.dumps(record.__dict__, default=str)` stores it: every
   * field of the record, with the level as the text written for it.
   */
  datatype StoredRecord = StoredRecord(data: OpenPriceData, levelText: string)

  /** `str()` of a member of a plain `Enum`: the class name, a dot and the member name. */
  function EnumStr(l: ConfidenceLevel): string
  {
    "ConfidenceLevel." + LevelName(l)
  }

  /** `ConfidenceLevel(text)`: the level whose value is the text; None for the ValueError. */
  function LevelByValue(text: string): (r: Option<ConfidenceLevel>)
    ensures r.Some? <==> exists l :: LevelText(l) == text
    ensures r.Some? ==> LevelText(r.value) == text
  {
    if text == LevelText(VeryHigh) then Some(VeryHigh)
    else if text == LevelText(High) then Some(High)
    else if text == LevelText(Medium) then Some(Medium)
    else if text == LevelText(Low) then Some(Low)
    else if text == LevelText(VeryLow) then Some(VeryLow)
    else None
  }

  /** Each level's value names it alone, and no `str()` of a member is a value. */
  lemma LevelTexts(l: ConfidenceLevel, m: ConfidenceLevel)
    ensures LevelText(l) == LevelText(m) ==> l == m
    ensures EnumStr(l) != LevelText(m)
  {
    assert EnumStr(l)[0] == 'C';
  }

  /**
   * `_parse_open_price_data`: the record with its level restored from the
   * stored text, or None when `ConfidenceLevel(...)` rejects the text and
   * the error is caught.
   */
  function ParseRecord(s: StoredRecord): (r: Option<OpenPriceData>)
    ensures r.Some? <==> exists l :: LevelText(l) == s.levelText
    ensures r.Some? ==> LevelText(r.value.analysis.level) == s.levelText
                        && r.value.(analysis := s.data.analysis) == s.data
                        && r.value.analysis.score == s.data.analysis.score
                        && r.value.analysis.position == s.data.analysis.position
  {
    var l := LevelByValue(s.levelText);
    if l.None? then None else Some(s.data.(analysis := s.data.analysis.(level := l.value)))
  }

  /** The record as stored: by `default=str` as written, or with the level's value as meant. */
  function Store(d: OpenPriceData, byValue: bool): (s: StoredRecord)
    ensures s.data == d
  {
    StoredRecord(d, if byValue then LevelText(d.analysis.level) else EnumStr(d.analysis.level))
  }

  /** A record stored as written never reads back; stored by its level's value it reads back as itself. */
  lemma StoredRecordReadsBack(d: OpenPriceData)
    ensures ParseRecord(Store(d, false)) == None
    ensures ParseRecord(Store(d, true)) == Some(d)
  {
    forall m: ConfidenceLevel ensures EnumStr(d.analysis.level) != LevelText(m) {
      LevelTexts(d.analysis.level, m);
    }
    LevelTexts(d.analysis.level, d.analysis.level);
    var l := LevelByValue(LevelText(d.analysis.level));
    LevelTexts(l.value, d.analysis.level);
  }

  /**
   * `record_open_price` on the stored text: an existing record is parsed
   * and answered, None when it does not parse, and nothing is written;
   * otherwise the analysed record is stored as written and answered.
   */
  function RecordOpenPriceAsWritten(store: map<string, StoredRecord>, code: string, current: int,
                                    decision: int, low: int, high: int, now: real)
    : (r: (Option<OpenPriceData>, map<string, StoredRecord>))
    ensures code in store ==> r == (ParseRecord(store[code]), store)
    ensures code !in store ==>
              r.0.Some? && r.1 == store[code := Store(r.0.value, false)] && r.0.value.openPrice == current
              && r.0.value.stockCode == code && r.0.value.analysis == AnalyzeConfidence(current, decision, low, high)
  {
    if code in store then (ParseRecord(store[code]), store)
    else
      var data := OpenPriceData(code, current, decision, low, high, now, AnalyzeConfidence(current, decision, low, high));
      (Some(data), store[code := Store(data, false)])
  }

  /**
   * The difference: as written, the second call for a code answers None
   * and writes nothing, where the meant service answers the first record.
   */
  lemma SecondRecordIsLost(store: map<string, StoredRecord>, code: string, p1: int, p2: int,
                           d: int, l: int, h: int, d2: int, l2: int, h2: int, t1: real, t2: real)
    requires code !in store
    ensures var (first, s1) := RecordOpenPriceAsWritten(store, code, p1, d, l, h, t1);
            var (second, s2) := RecordOpenPriceAsWritten(s1, code, p2, d2, l2, h2, t2);
            first.Some? && second.None? && s2 == s1
  {
    var (first, s1) := RecordOpenPriceAsWritten(store, code, p1, d, l, h, t1);
    StoredRecordReadsBack(first.value);
  }

  /** The records of a list of opens, each stored as written or by value. */
  function StoreAll(ds: seq<OpenPriceData>, byValue: bool): (r: seq<StoredRecord>)
    ensures |r| == |ds|
    ensures forall i :: 0 <= i < |ds| ==> r[i] == Store(ds[i], byValue)
  {
    if |ds| == 0 then [] else StoreAll(ds[..|ds| - 1], byValue) + [Store(ds[|ds| - 1], byValue)]
  }

  /** The levels of a list of opens, in order. */
  function LevelsOf(ds: seq<OpenPriceData>): (r: seq<ConfidenceLevel>)
    ensures |r| == |ds|
    ensures forall i :: 0 <= i < |ds| ==> r[i] == ds[i].analysis.level
  {
    if |ds| == 0 then [] else LevelsOf(ds[..|ds| - 1]) + [ds[|ds| - 1].analysis.level]
  }

  /**
   * The levels `get_all_confidence_data` counts, in key order: a record
   * that does not parse has no summary and is skipped.
   */
  function ParsedLevels(records: seq<StoredRecord>): (r: seq<ConfidenceLevel>)
    ensures |r| <= |records|
  {
    if |records| == 0 then []
    else
      var p := ParseRecord(records[|records| - 1]);
      ParsedLevels(records[..|records| - 1]) + (if p.Some? then [p.value.analysis.level] else [])
  }

  /** Records stored as written all drop out; records stored by value give their levels. */
  lemma {:induction false} ParsedStored(ds: seq<OpenPriceData>)
    ensures ParsedLevels(StoreAll(ds, false)) == []
    ensures ParsedLevels(StoreAll(ds, true)) == LevelsOf(ds)
    decreases |ds|
  {
    if |ds| > 0 {
      var init := ds[..|ds| - 1];
      ParsedStored(init);
      StoredRecordReadsBack(ds[|ds| - 1]);
      assert StoreAll(ds, false)[..|ds| - 1] == StoreAll(init, false);
      assert StoreAll(ds, true)[..|ds| - 1] == StoreAll(init, true);
    }
  }

  /**
   * `get_all_confidence_data` over the stored records: the parsed levels
   * counted under the key as written (`written`) or under the level's name.
   */
  function ConfidenceStatistics(records: seq<StoredRecord>, written: bool): (r: Result<map<string, nat>, string>)
    ensures !written ==> r.Success? && r.value.Keys == StatKeys
                         && forall l :: r.value[LevelName(l)] == multiset(ParsedLevels(records))[l]
    ensures written ==> (r.Success? <==> ParsedLevels(records) == [])
  {
    if written then CountLevelsAsWritten(ParsedLevels(records)) else CountLevels(ParsedLevels(records))
  }

  /**
   * As written no stored record parses, so the statistics count nothing and
   * the key error of the counting loop is never reached; with records
   * stored by value, one record is enough to reach it, and the meant keys
   * count every level.
   */
  lemma StatisticsOfStoredRecords(ds: seq<OpenPriceData>)
    ensures var r := ConfidenceStatistics(StoreAll(ds, false), true);
            r.Success? && forall k :: k in StatKeys ==> r.value[k] == 0
    ensures |ds| > 0 ==> ConfidenceStatistics(StoreAll(ds, true), true).Failure?
    ensures var r := ConfidenceStatistics(StoreAll(ds, true), false);
            r.Success? && forall l :: r.value[LevelName(l)] == multiset(LevelsOf(ds))[l]
  {
    ParsedStored(ds);
  }
}
