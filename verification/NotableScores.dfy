/** Notable scores of events, and their maximum per event type from one representative per group. */
module NotableScores {
  import opened Options

  datatype Event = Event(eventType: string, severity: Option<string>, message: string)

  const HIGH_ATTENTION_TYPES: seq<string> := [
    "VmFailedToPowerOnEvent", "VmFailedToStandbyGuestEvent", "VmFailedToSuspendEvent",
    "HostConnectionLostEvent", "HostNotRespondingEvent", "DatastoreRemovedOnHostEvent"]

  const ALERT_KEYWORDS: seq<string> := ["fail", "error", "lost", "timeout", "corrupt"]

  /** Lower-casing, by the application and by the database alike; the keywords and the empty
      text are lower case already. */
  ghost predicate IsLowerCasing(lower: string -> string) {
    lower("fail") == "fail" && lower("") == ""
  }

  predicate StartsAt(s: string, part: string, i: nat) {
    i + |part| <= |s| && s[i..i + |part|] == part
  }

  predicate Contains(s: string, part: string) {
    exists i :: 0 <= i <= |s| && StartsAt(s, part, i)
  }

  lemma ContainsExactly(s: string, part: string)
    ensures Contains(s, part) <==> exists before, after :: s == before + part + after
  {
    if Contains(s, part) {
      var i :| 0 <= i <= |s| && StartsAt(s, part, i);
      assert s == s[..i] + part + s[i + |part|..];
    }
    if before, after :| s == before + part + after { assert StartsAt(s, part, |before|); }
  }

  predicate HasKeyword(message: string, lower: string -> string) {
    exists k :: 0 <= k < |ALERT_KEYWORDS| && Contains(lower(message), ALERT_KEYWORDS[k])
  }

  function SeverityWeight(severity: string): int {
    if severity == "error" then 40 else if severity == "warning" then 20 else 0
  }

  function SeverityText(severity: Option<string>, lower: string -> string): string {
    lower(if severity.Some? then severity.value else "")
  }

  predicate MatchesPattern(eventType: string, pattern: string) {
    if pattern != "" && pattern[|pattern| - 1] == '*' then pattern[..|pattern| - 1] <= eventType
      else eventType == pattern
  }

  /** A pattern with a star matches what begins like it; any other only itself. */
  lemma PatternExactly(eventType: string, pattern: string)
    ensures MatchesPattern(eventType, pattern + "*") <==> exists rest :: eventType == pattern + rest
    ensures pattern != "" && pattern[|pattern| - 1] != '*' ==>
              (MatchesPattern(eventType, pattern) <==> eventType == pattern)
  {
    assert (pattern + "*")[..|pattern + "*"| - 1] == pattern;
    if pattern <= eventType { assert eventType == pattern + eventType[|pattern|..]; }
  }

  predicate IsHighAttention(eventType: string) {
    exists k :: 0 <= k < |HIGH_ATTENTION_TYPES| && MatchesPattern(eventType, HIGH_ATTENTION_TYPES[k])
  }

  function Min(a: int, b: int): int {
    if a <= b then a else b
  }

  function Max(a: int, b: int): int {
    if a >= b then a else b
  }

  /** The base score: it depends on the message only through the keywords. */
  function BaseScore(e: Event, lower: string -> string): int {
    SeverityWeight(SeverityText(e.severity, lower))
    + (if IsHighAttention(e.eventType) then 35 else 0)
    + (if HasKeyword(e.message, lower) then 10 else 0)
  }

  function FinalScore(e: Event, delta: int, lower: string -> string): (r: int)
    ensures 0 <= r <= 100
    ensures 0 <= BaseScore(e, lower) + delta <= 100 ==> r == BaseScore(e, lower) + delta
    ensures BaseScore(e, lower) + delta > 100 ==> r == 100
    ensures BaseScore(e, lower) + delta < 0 ==> r == 0
  {
    Max(0, Min(100, Min(BaseScore(e, lower), 100) + delta))
  }

  /** The tags there are. */
  const TAGS: set<string> := {"severity:error", "severity:warning", "high_risk_type", "keyword_alert"}

  /** The six types that need attention. */
  lemma HighAttentionTypes(eventType: string)
    ensures IsHighAttention(eventType)
            <==> || eventType == "VmFailedToPowerOnEvent" || eventType == "VmFailedToStandbyGuestEvent"
                 || eventType == "VmFailedToSuspendEvent" || eventType == "HostConnectionLostEvent"
                 || eventType == "HostNotRespondingEvent" || eventType == "DatastoreRemovedOnHostEvent"
  {
    assert forall k :: 0 <= k < |HIGH_ATTENTION_TYPES| ==>
      MatchesPattern(eventType, HIGH_ATTENTION_TYPES[k]) == (eventType == HIGH_ATTENTION_TYPES[k]);
    assert IsHighAttention(eventType) <==> eventType in HIGH_ATTENTION_TYPES;
  }

  /** The five words that alert. */
  lemma Keywords(message: string, lower: string -> string)
    ensures HasKeyword(message, lower)
            <==> || Contains(lower(message), "fail") || Contains(lower(message), "error")
                 || Contains(lower(message), "lost") || Contains(lower(message), "timeout")
                 || Contains(lower(message), "corrupt")
  {
    assert ALERT_KEYWORDS[0] == "fail" && ALERT_KEYWORDS[1] == "error" && ALERT_KEYWORDS[2] == "lost"
           && ALERT_KEYWORDS[3] == "timeout" && ALERT_KEYWORDS[4] == "corrupt";
  }

  method ScoreEvent(e: Event, lower: string -> string) returns (score: int, tags: seq<string>)
    ensures score == BaseScore(e, lower) && 0 <= score <= 85
    ensures score == (if "severity:error" in tags then 40 else 0) + (if "severity:warning" in tags then 20 else 0)
                     + (if "high_risk_type" in tags then 35 else 0) + if "keyword_alert" in tags then 10 else 0
    ensures "severity:error" in tags <==> lower(if e.severity.Some? then e.severity.value else "") == "error"
    ensures "severity:warning" in tags <==> lower(if e.severity.Some? then e.severity.value else "") == "warning"
    ensures forall tag :: tag in tags ==> tag in TAGS
    ensures "high_risk_type" in tags <==> IsHighAttention(e.eventType)
    ensures "keyword_alert" in tags <==> HasKeyword(e.message, lower)
    ensures forall i, j :: 0 <= i < j < |tags| ==> tags[i] != tags[j]
  {
    tags := [];
    score := SeverityWeight(SeverityText(e.severity, lower));
    var kinds := if score == 40 then "severity:error" else "severity:warning";
    if score != 0 { tags := [kinds]; }
    assert kinds[0] == 's' && "severity:error"[9] != "severity:warning"[9] && "high_risk_type"[0] == 'h'
           && "keyword_alert"[0] == 'k';
    var high := false;
    for k := 0 to |HIGH_ATTENTION_TYPES|
      invariant high == false && forall j :: 0 <= j < k ==> !MatchesPattern(e.eventType, HIGH_ATTENTION_TYPES[j])
    {
      if MatchesPattern(e.eventType, HIGH_ATTENTION_TYPES[k]) {
        high := true;
        break;
      }
    }
    if high {
      score := score + 35;
      tags := tags + ["high_risk_type"];
    }
    if HasKeyword(e.message, lower) {
      score := score + 10;
      tags := tags + ["keyword_alert"];
    }
    score := Min(score, 100);
    assert score == BaseScore(e, lower);
  }

  // ---- one representative per group

  /** What the database groups by. */
  datatype Group = Group(eventType: string, severity: Option<string>, keyword: bool)

  function GroupOf(e: Event, lower: string -> string): Group {
    Group(e.eventType, e.severity, HasKeyword(e.message, lower))
  }

  function Representative(g: Group): Event {
    Event(g.eventType, g.severity, if g.keyword then ALERT_KEYWORDS[0] else "")
  }

  /** A group's representative scores like every event in the group. */
  lemma RepresentativeScoresAlike(e: Event, delta: int, lower: string -> string)
    requires IsLowerCasing(lower)
    ensures FinalScore(Representative(GroupOf(e, lower)), delta, lower) == FinalScore(e, delta, lower)
  {
    var r := Representative(GroupOf(e, lower));
    if HasKeyword(e.message, lower) {
      assert StartsAt(lower(r.message), ALERT_KEYWORDS[0], 0);
      assert Contains(lower(r.message), ALERT_KEYWORDS[0]);
    } else {
      assert forall k :: 0 <= k < |ALERT_KEYWORDS| ==> |ALERT_KEYWORDS[k]| > 0;
    }
  }

  function CountOf(events: seq<Event>, eventType: string): nat {
    if events == [] then 0
    else CountOf(events[..|events| - 1], eventType) + if events[|events| - 1].eventType == eventType then 1 else 0
  }

  /** The highest final score of an event of this type; 0 if there is none. */
  function MaxScore(events: seq<Event>, eventType: string, delta: int, lower: string -> string): int {
    if events == [] then 0 else
    var before := MaxScore(events[..|events| - 1], eventType, delta, lower);
    if events[|events| - 1].eventType == eventType then Max(before, FinalScore(events[|events| - 1], delta, lower))
      else before
  }

  lemma {:induction false} MaxScoreIsMaximum(events: seq<Event>, eventType: string, delta: int, lower: string -> string)
    ensures forall e :: e in events && e.eventType == eventType ==>
              FinalScore(e, delta, lower) <= MaxScore(events, eventType, delta, lower)
    ensures (exists e :: e in events && e.eventType == eventType) ==>
              exists e :: e in events && e.eventType == eventType
                && FinalScore(e, delta, lower) == MaxScore(events, eventType, delta, lower)
    ensures (forall e :: e in events ==> e.eventType != eventType) ==> MaxScore(events, eventType, delta, lower) == 0
    decreases |events|
  {
    if events != [] {
      var front, last := events[..|events| - 1], events[|events| - 1];
      assert events == front + [last];
      MaxScoreIsMaximum(front, eventType, delta, lower);
    }
  }

  datatype TypeCount = TypeCount(eventType: string, count: nat)

  /** What `GROUP BY ... ORDER BY count DESC LIMIT` may answer. */
  ghost predicate IsTopTypes(events: seq<Event>, limit: nat, rows: seq<TypeCount>) {
    && |rows| <= limit
    && (forall i, j :: 0 <= i < j < |rows| ==> rows[i].eventType != rows[j].eventType && rows[i].count >= rows[j].count)
    && (forall i :: 0 <= i < |rows| ==> rows[i].count == CountOf(events, rows[i].eventType) && rows[i].count > 0)
    && (forall e :: e in events && (forall i :: 0 <= i < |rows| ==> rows[i].eventType != e.eventType) ==>
          |rows| == limit && forall i :: 0 <= i < |rows| ==> rows[i].count >= CountOf(events, e.eventType))
  }

  /** What `GROUP BY event_type, severity, has_keyword` of the events of these types may answer. */
  ghost predicate AreGroups(events: seq<Event>, rows: seq<TypeCount>, groups: seq<Group>, lower: string -> string) {
    && (forall g :: g in groups ==> exists e :: e in events && GroupOf(e, lower) == g && HasType(rows, e.eventType))
    && (forall e :: e in events && HasType(rows, e.eventType) ==> GroupOf(e, lower) in groups)
  }

  predicate HasType(rows: seq<TypeCount>, eventType: string) {
    exists i :: 0 <= i < |rows| && rows[i].eventType == eventType
  }

  function TypesOf(rows: seq<TypeCount>): set<string> {
    set i | 0 <= i < |rows| :: rows[i].eventType
  }

  datatype Bucket = Bucket(eventType: string, count: nat, maxScore: int)

  function DeltaOf(deltas: map<string, int>, eventType: string): (delta: int)
    ensures (eventType, delta) in deltas.Items || (eventType !in deltas && delta == 0)
  {
    if eventType in deltas then deltas[eventType] else 0
  }

  /** Scores one representative per group and keeps the highest score of each type. */
  method BestByType(types: set<string>, groups: seq<Group>, deltas: map<string, int>, lower: string -> string)
    returns (maxByType: map<string, int>)
    requires forall g :: g in groups ==> g.eventType in types
    ensures maxByType.Keys == types && AllBest(groups, deltas, lower, maxByType)
  {
    maxByType := map t | t in types :: 0;
    for k := 0 to |groups|
      invariant maxByType.Keys == types && AllBest(groups[..k], deltas, lower, maxByType)
    {
      var g := groups[k];
      var score := FinalScore(Representative(g), DeltaOf(deltas, g.eventType), lower);
      GroupsGrow(groups, k);
      AllBestGrows(groups[..k], g, deltas, lower, maxByType);
      if score > maxByType[g.eventType] { maxByType := maxByType[g.eventType := score]; }
    }
    assert groups[..|groups|] == groups;
  }

  /** The maximum over the groups' representatives is the maximum over all events. */
  method QueryTopEventTypeBuckets(events: seq<Event>, rows: seq<TypeCount>, groups: seq<Group>,
                                  deltas: map<string, int>, lower: string -> string, limit: nat)
    returns (buckets: seq<Bucket>)
    requires IsTopTypes(events, limit, rows) && AreGroups(events, rows, groups, lower) && IsLowerCasing(lower)
    ensures |buckets| == |rows|
    ensures forall i :: 0 <= i < |buckets| ==> buckets[i] == RightBucket(events, rows[i], deltas, lower)
  {
    var maxByType := BestByType(TypesOf(rows), groups, deltas, lower);
    buckets := seq(|rows|, i requires 0 <= i < |rows| && rows[i].eventType in maxByType =>
                             Bucket(rows[i].eventType, rows[i].count, maxByType[rows[i].eventType]));
    TopTypesAreRight(events, limit, rows, groups, deltas, lower, maxByType);
  }

  /** The bucket that a row of the query should give. */
  ghost function RightBucket(events: seq<Event>, row: TypeCount, deltas: map<string, int>,
                             lower: string -> string): Bucket {
    Bucket(row.eventType, CountOf(events, row.eventType),
      MaxScore(events, row.eventType, DeltaOf(deltas, row.eventType), lower))
  }

  function PlacesOf(events: seq<Event>, eventType: string): set<nat> {
    set i: nat | i < |events| && events[i].eventType == eventType
  }

  lemma OneMorePlace(front: seq<Event>, last: Event, eventType: string)
    ensures PlacesOf(front + [last], eventType)
            == PlacesOf(front, eventType) + if last.eventType == eventType then {|front|} else {}
  {
  }

  /** The count of a type is the number of places at which it stands. */
  lemma {:induction false} CountOfType(events: seq<Event>, eventType: string)
    ensures CountOf(events, eventType) == |PlacesOf(events, eventType)|
    decreases |events|
  {
    if events != [] {
      var front, last := events[..|events| - 1], events[|events| - 1];
      CountOfType(front, eventType);
      assert events == front + [last];
      OneMorePlace(front, last, eventType);
    }
  }

  lemma TopTypesAreRight(events: seq<Event>, limit: nat, rows: seq<TypeCount>, groups: seq<Group>,
                         deltas: map<string, int>, lower: string -> string, maxByType: map<string, int>)
    requires IsTopTypes(events, limit, rows) && AreGroups(events, rows, groups, lower) && IsLowerCasing(lower)
    requires maxByType.Keys == TypesOf(rows) && AllBest(groups, deltas, lower, maxByType)
    ensures forall i :: 0 <= i < |rows| ==>
              rows[i].eventType in maxByType
              && Bucket(rows[i].eventType, rows[i].count, maxByType[rows[i].eventType])
                == RightBucket(events, rows[i], deltas, lower)
  {
    forall i | 0 <= i < |rows|
      ensures rows[i].eventType in maxByType
      ensures Bucket(rows[i].eventType, rows[i].count, maxByType[rows[i].eventType])
                == RightBucket(events, rows[i], deltas, lower)
    {
      TopTypeIsRight(events, limit, rows, groups, deltas, lower, maxByType, i);
    }
  }

  lemma TopTypeIsRight(events: seq<Event>, limit: nat, rows: seq<TypeCount>, groups: seq<Group>,
                       deltas: map<string, int>, lower: string -> string, maxByType: map<string, int>, i: nat)
    requires IsTopTypes(events, limit, rows) && AreGroups(events, rows, groups, lower) && IsLowerCasing(lower)
             && i < |rows|
    requires rows[i].eventType in maxByType && AllBest(groups, deltas, lower, maxByType)
    ensures rows[i].count == CountOf(events, rows[i].eventType)
    ensures maxByType[rows[i].eventType]
              == MaxScore(events, rows[i].eventType, DeltaOf(deltas, rows[i].eventType), lower)
  {
    var t := rows[i].eventType;
    BestIsMaximum(events, rows, groups, t, DeltaOf(deltas, t), lower, maxByType[t]);
  }

  ghost predicate AllBest(groups: seq<Group>, deltas: map<string, int>, lower: string -> string,
                          maxByType: map<string, int>) {
    forall t :: t in maxByType ==> IsBest(groups, t, DeltaOf(deltas, t), lower, maxByType[t])
  }

  lemma AllBestGrows(groups: seq<Group>, g: Group, deltas: map<string, int>, lower: string -> string,
                     maxByType: map<string, int>)
    requires g.eventType in maxByType && AllBest(groups, deltas, lower, maxByType)
    ensures var score := FinalScore(Representative(g), DeltaOf(deltas, g.eventType), lower);
            AllBest(groups + [g], deltas, lower, if score > maxByType[g.eventType] then maxByType[g.eventType := score]
              else maxByType)
  {
  }

  /** `best` is the highest representative's score among `groups` of this type, or 0. */
  ghost predicate IsBest(groups: seq<Group>, eventType: string, delta: int, lower: string -> string, best: int) {
    && best >= 0
    && (forall g :: g in groups && g.eventType == eventType ==> FinalScore(Representative(g), delta, lower) <= best)
    && (best > 0 ==>
          exists g :: g in groups && g.eventType == eventType && FinalScore(Representative(g), delta, lower) == best)
  }

  lemma GroupsGrow(groups: seq<Group>, k: nat)
    requires k < |groups|
    ensures groups[..k + 1] == groups[..k] + [groups[k]]
  {
  }

  lemma BestIsMaximum(events: seq<Event>, rows: seq<TypeCount>, groups: seq<Group>, eventType: string, delta: int,
                      lower: string -> string, best: int)
    requires AreGroups(events, rows, groups, lower) && HasType(rows, eventType) && IsLowerCasing(lower)
    requires IsBest(groups, eventType, delta, lower, best)
    ensures best == MaxScore(events, eventType, delta, lower)
  {
    MaxScoreIsMaximum(events, eventType, delta, lower);
    forall e | e in events && e.eventType == eventType ensures FinalScore(e, delta, lower) <= best {
      RepresentativeScoresAlike(e, delta, lower);
      assert GroupOf(e, lower) in groups;
    }
    if best > 0 {
      var g :| g in groups && g.eventType == eventType && FinalScore(Representative(g), delta, lower) == best;
      var e :| e in events && GroupOf(e, lower) == g;
      RepresentativeScoresAlike(e, delta, lower);
    }
  }
}
