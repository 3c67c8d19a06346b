/** Alert correlation: deduplication by fingerprint, and greedy clustering around the most
    severe alert that is left. */
module Correlator {
  import opened Basics

  datatype Alert = Alert(id: string, runId: Option<string>, openedMicros: int, severity: string,
                         alertType: string, sourceSystem: string)

  datatype Cluster = Cluster(primary: Alert, alerts: seq<Alert>, duplicates: nat, score: real)

  /** Sort keys, compared one component after the other. */
  datatype Key = Key(major: int, minor: int)

  predicate AtMost(a: Key, b: Key) {
    a.major < b.major || (a.major == b.major && a.minor <= b.minor)
  }

  // ----- stable sorting

  function Inserted(key: Alert -> Key, s: seq<Alert>, x: Alert): (r: seq<Alert>)
    ensures |r| == |s| + 1
  {
    if s == [] || AtMost(key(s[|s| - 1]), key(x)) then s + [x]
    else Inserted(key, s[..|s| - 1], x) + [s[|s| - 1]]
  }

  /** The list in key order, equal keys in their original order. */
  function SortedBy(key: Alert -> Key, s: seq<Alert>): (r: seq<Alert>)
    ensures |r| == |s|
  {
    if s == [] then [] else Inserted(key, SortedBy(key, s[..|s| - 1]), s[|s| - 1])
  }

  predicate InOrder(key: Alert -> Key, s: seq<Alert>) {
    forall i, k :: 0 <= i < k < |s| ==> AtMost(key(s[i]), key(s[k]))
  }

  lemma {:induction false} InsertedIsPermutation(key: Alert -> Key, s: seq<Alert>, x: Alert)
    ensures multiset(Inserted(key, s, x)) == multiset(s) + multiset{x}
    decreases |s|
  {
    if s == [] || AtMost(key(s[|s| - 1]), key(x)) {
      assert multiset(s + [x]) == multiset(s) + multiset{x};
    } else {
      var front, last := s[..|s| - 1], s[|s| - 1];
      InsertedIsPermutation(key, front, x);
      assert s == front + [last];
      assert multiset(Inserted(key, front, x) + [last]) == multiset(Inserted(key, front, x)) + multiset{last};
    }
  }

  lemma {:induction false} InsertedInOrder(key: Alert -> Key, s: seq<Alert>, x: Alert)
    requires InOrder(key, s)
    ensures InOrder(key, Inserted(key, s, x))
    decreases |s|
  {
    if !(s == [] || AtMost(key(s[|s| - 1]), key(x))) {
      var front, last := s[..|s| - 1], s[|s| - 1];
      InsertedInOrder(key, front, x);
      InsertedIsPermutation(key, front, x);
      var r := Inserted(key, front, x);
      forall i | 0 <= i < |r| ensures AtMost(key(r[i]), key(last)) {
        assert r[i] in multiset(r);
        if r[i] != x {
          assert r[i] in multiset(front);
          var k :| 0 <= k < |front| && front[k] == r[i];
        }
      }
    }
  }

  lemma {:induction false} SortedByIsPermutation(key: Alert -> Key, s: seq<Alert>)
    ensures multiset(SortedBy(key, s)) == multiset(s) && InOrder(key, SortedBy(key, s))
    decreases |s|
  {
    if s != [] {
      SortedByIsPermutation(key, s[..|s| - 1]);
      InsertedInOrder(key, SortedBy(key, s[..|s| - 1]), s[|s| - 1]);
      InsertedIsPermutation(key, SortedBy(key, s[..|s| - 1]), s[|s| - 1]);
      assert s == s[..|s| - 1] + [s[|s| - 1]];
    }
  }

  // ----- text

  function LowerChar(c: char): char {
    if 'A' <= c <= 'Z' then (c as int + 32) as char else c
  }

  function Lower(s: string): string {
    seq(|s|, i requires 0 <= i < |s| => LowerChar(s[i]))
  }

  /** str.replace(pattern, "") for a nonempty pattern. */
  function Without(s: string, pattern: string): string
    requires pattern != ""
    decreases |s|
  {
    if |s| < |pattern| then s
    else if s[..|pattern|] == pattern then Without(s[|pattern|..], pattern)
    else [s[0]] + Without(s[1..], pattern)
  }

  /** Four texts with a colon between any two. */
  function Colons(s: string, r: string, t: string, h: string): string {
    s + ":" + r + ":" + t + ":" + h
  }

  lemma Sandwiched(before: string, x: string, y: string, behind: string)
    requires before + x + behind == before + y + behind
    ensures x == y
  {
    assert |x| == |y|;
    assert x == (before + x + behind)[|before|..|before| + |x|];
  }

  /** A text tells any one of its parts if the others are known. */
  lemma FirstTells(s: string, r: string, t: string, h: string, x: string)
    requires Colons(s, r, t, h) == Colons(x, r, t, h)
    ensures s == x
  {
    var behind := ":" + r + ":" + t + ":" + h;
    assert "" + s + behind == Colons(s, r, t, h) && "" + x + behind == Colons(x, r, t, h);
    Sandwiched("", s, x, behind);
  }

  lemma SecondTells(s: string, r: string, t: string, h: string, x: string)
    requires Colons(s, r, t, h) == Colons(s, x, t, h)
    ensures r == x
  {
    var behind := ":" + t + ":" + h;
    assert s + ":" + r + behind == Colons(s, r, t, h) && s + ":" + x + behind == Colons(s, x, t, h);
    Sandwiched(s + ":", r, x, behind);
  }

  lemma ThirdTells(s: string, r: string, t: string, h: string, x: string)
    requires Colons(s, r, t, h) == Colons(s, r, x, h)
    ensures t == x
  {
    var before, behind := s + ":" + r + ":", ":" + h;
    assert before + t + behind == Colons(s, r, t, h) && before + x + behind == Colons(s, r, x, h);
    Sandwiched(before, t, x, behind);
  }

  lemma FourthTells(s: string, r: string, t: string, h: string, x: string)
    requires Colons(s, r, t, h) == Colons(s, r, t, x)
    ensures h == x
  {
    var before := s + ":" + r + ":" + t + ":";
    assert before + h + "" == Colons(s, r, t, h) && before + x + "" == Colons(s, r, t, x);
    Sandwiched(before, h, x, "");
  }

  function SeverityRank(severity: string): (r: nat)
    ensures r <= 4
  {
    var s := Lower(severity);
    if s == "critical" then 0 else if s == "high" then 1 else if s == "warning" then 2
    else if s == "info" then 3 else 4
  }

  /** The order of severities, in either case of letters; what is none of the four comes last. */
  lemma SeveritiesInOrder(severity: string)
    ensures SeverityRank("critical") < SeverityRank("high") < SeverityRank("warning") < SeverityRank("info")
    ensures Lower(severity) !in {"critical", "high", "warning", "info"} ==>
      SeverityRank("info") < SeverityRank(severity)
    ensures SeverityRank(Lower(severity)) == SeverityRank(severity)
    ensures Lower("CRITICAL") == "critical" && Lower("INFO") == "info"
  {
    assert Lower("critical") == "critical" && Lower("high") == "high";
    assert Lower("warning") == "warning" && Lower("info") == "info";
    assert Lower(Lower(severity)) == Lower(severity);
  }

  /** A more severe alert is taken first whenever it was opened; of two equally severe ones the
      earlier. */
  lemma UrgentFirst(a: Alert, b: Alert)
    ensures SeverityRank(a.severity) < SeverityRank(b.severity) ==> !AtMost(PriorityKey(b), PriorityKey(a))
    ensures SeverityRank(a.severity) == SeverityRank(b.severity) ==>
      (AtMost(PriorityKey(a), PriorityKey(b)) <==> a.openedMicros <= b.openedMicros)
  {
  }

  function TimeKey(a: Alert): Key {
    Key(a.openedMicros, 0)
  }

  function PriorityKey(a: Alert): Key {
    Key(SeverityRank(a.severity), a.openedMicros)
  }

  // ----- sums

  function Sum(xs: seq<real>): real {
    if xs == [] then 0.0 else Sum(xs[..|xs| - 1]) + xs[|xs| - 1]
  }

  lemma {:induction false} SumBetween(xs: seq<real>, low: real, high: real)
    requires forall i :: 0 <= i < |xs| ==> low <= xs[i] <= high
    ensures low * |xs| as real <= Sum(xs) <= high * |xs| as real
  {
    if xs != [] {
      var front := xs[..|xs| - 1];
      SumBetween(front, low, high);
      var n := |front| as real;
      assert |xs| as real == n + 1.0;
      assert low * (n + 1.0) == low * n + low && high * (n + 1.0) == high * n + high;
    }
  }

  lemma ProductsCompare(a: real, b: real, n: real)
    requires a < b && n > 0.0
    ensures a * n < b * n
  {
  }

  lemma QuotientBetween(s: real, n: real, low: real, high: real)
    requires n > 0.0 && low * n <= s <= high * n
    ensures low <= s / n <= high
  {
    var q := s / n;
    assert q * n == s;
    if q < low {
      ProductsCompare(q, low, n);
    }
    if q > high {
      ProductsCompare(high, q, n);
    }
  }

  lemma MeanBetween(xs: seq<real>, low: real, high: real)
    requires xs != [] && forall i :: 0 <= i < |xs| ==> low <= xs[i] <= high
    ensures low <= Sum(xs) / |xs| as real <= high
  {
    hide Sum;
    SumBetween(xs, low, high);
    QuotientBetween(Sum(xs), |xs| as real, low, high);
  }

  // ----- the engine

  class CorrelatorEngine {
    const windowSeconds: real
    const minScore: real
    /** The dependency graph, as pairs of source and target. */
    const cmdb: seq<(string, string)>
    const sha256: string -> string
    /** The text of an hour, counted from a fixed hour zero. */
    const hourText: int -> string

    constructor (windowSeconds: real, minScore: real, cmdb: seq<(string, string)>, sha256: string -> string,
                 hourText: int -> string)
      ensures this.windowSeconds == windowSeconds && this.minScore == minScore && this.cmdb == cmdb
      ensures this.sha256 == sha256 && this.hourText == hourText
    {
      this.windowSeconds, this.minScore, this.cmdb := windowSeconds, minScore, cmdb;
      this.sha256, this.hourText := sha256, hourText;
    }

    /** generate_fingerprint. */
    function Fingerprint(a: Alert): string {
      var run := if a.runId.Some? && a.runId.value != "" then a.runId.value else "NO_RUN";
      sha256(a.sourceSystem + ":" + run + ":" + a.alertType + ":" + hourText(a.openedMicros / 3_600_000_000))
    }

    predicate SameHour(a: Alert, b: Alert) {
      a.openedMicros / 3_600_000_000 == b.openedMicros / 3_600_000_000
    }

    function RunText(a: Alert): string {
      if a.runId.Some? && a.runId.value != "" then a.runId.value else "NO_RUN"
    }

    /** Two alerts are duplicates if they agree in source, run, type and hour; and of two that
      agree in all but one of these, with a digest and hours that tell texts apart, none. */
    lemma FingerprintTells(a: Alert, b: Alert)
      ensures a.sourceSystem == b.sourceSystem && RunText(a) == RunText(b) && a.alertType == b.alertType
              && SameHour(a, b) ==>
        Fingerprint(a) == Fingerprint(b)
      ensures (forall x, y :: sha256(x) == sha256(y) ==> x == y)
              && (forall h, k :: hourText(h) == hourText(k) ==> h == k)
              && Fingerprint(a) == Fingerprint(b) ==>
        && (RunText(a) == RunText(b) && a.alertType == b.alertType && SameHour(a, b) ==>
              a.sourceSystem == b.sourceSystem)
        && (a.sourceSystem == b.sourceSystem && a.alertType == b.alertType && SameHour(a, b) ==>
              RunText(a) == RunText(b))
        && (a.sourceSystem == b.sourceSystem && RunText(a) == RunText(b) && SameHour(a, b) ==>
              a.alertType == b.alertType)
        && (a.sourceSystem == b.sourceSystem && RunText(a) == RunText(b) && a.alertType == b.alertType ==>
              SameHour(a, b))
    {
      hide Colons;
      var h, k := hourText(a.openedMicros / 3_600_000_000), hourText(b.openedMicros / 3_600_000_000);
      FingerprintText(a);
      FingerprintText(b);
      var source, run, kind := a.sourceSystem, RunText(a), a.alertType;
      if Colons(source, run, kind, h) == Colons(b.sourceSystem, run, kind, h) {
        FirstTells(source, run, kind, h, b.sourceSystem);
      }
      if Colons(source, run, kind, h) == Colons(source, RunText(b), kind, h) {
        SecondTells(source, run, kind, h, RunText(b));
      }
      if Colons(source, run, kind, h) == Colons(source, run, b.alertType, h) {
        ThirdTells(source, run, kind, h, b.alertType);
      }
      if Colons(source, run, kind, h) == Colons(source, run, kind, k) {
        FourthTells(source, run, kind, h, k);
      }
    }

    lemma FingerprintText(a: Alert)
      ensures Fingerprint(a)
              == sha256(Colons(a.sourceSystem, RunText(a), a.alertType, hourText(a.openedMicros / 3_600_000_000)))
    {
    }

    /** _is_topologically_related. */
    predicate Related(a: Option<string>, b: Option<string>) {
      a.Some? && b.Some? && a.value != "" && b.value != "" &&
      var j, k := Without(a.value, "DEMO-RUN-"), Without(b.value, "DEMO-RUN-");
      exists i :: 0 <= i < |cmdb| && (cmdb[i] == (j, k) || cmdb[i] == (k, j))
    }

    function SecondsApart(a: Alert, b: Alert): real {
      var d := a.openedMicros - b.openedMicros;
      (if d < 0 then -d else d) as real / 1000000.0
    }

    /** calculate_pairwise_score. */
    function Score(a: Alert, b: Alert): (s: real)
      ensures 0.0 <= s <= 1.0
    {
      var sameRun := if a.runId.Some? && b.runId.Some? && a.runId.value != "" && a.runId == b.runId then 0.8 else 0.0;
      var apart := SecondsApart(a, b);
      var near := if apart <= 60.0 then 0.3 else if apart <= windowSeconds then 0.15 else 0.0;
      var sameType := if a.alertType == b.alertType then 0.2 else 0.0;
      var basic := sameRun + near + sameType;
      var total := if basic < 0.8 && Related(a.runId, b.runId) then basic + 0.6 else basic;
      if total < 1.0 then total else 1.0
    }

    predicate SameRun(a: Alert, b: Alert) {
      a.runId.Some? && a.runId.value != "" && a.runId == b.runId
    }

    /** The weights, case by case: by minutes apart, type, and run. */
    lemma ScoreTable(a: Alert, b: Alert)
      ensures var apart, alike, near := SecondsApart(a, b), a.alertType == b.alertType, SecondsApart(a, b) <= 60.0;
        var s := Score(a, b);
        if SameRun(a, b) then
          if near || alike then s == 1.0
          else if apart <= windowSeconds then s == 0.95 else s == 0.8
        else if Related(a.runId, b.runId) then
          if near then s == (if alike then 1.0 else 0.9)
          else if apart <= windowSeconds then s == (if alike then 0.95 else 0.75)
          else s == (if alike then 0.8 else 0.6)
        else
          if near then s == (if alike then 0.5 else 0.3)
          else if apart <= windowSeconds then s == (if alike then 0.35 else 0.15)
          else s == (if alike then 0.2 else 0.0)
    {
    }

    /** More dependencies never lower a score. */
    lemma RelationsOnlyAdd(that: CorrelatorEngine, a: Alert, b: Alert)
      requires windowSeconds == that.windowSeconds && forall e :: e in cmdb ==> e in that.cmdb
      ensures Score(a, b) <= that.Score(a, b)
    {
      if Related(a.runId, b.runId) {
        RelatedIff(a.runId, b.runId);
        that.RelatedIff(a.runId, b.runId);
      }
    }

    /** A dependency counts in either direction. */
    lemma RelatedIff(a: Option<string>, b: Option<string>)
      ensures Related(a, b) <==>
        && a.Some? && b.Some? && a.value != "" && b.value != ""
        && var j, k := Without(a.value, "DEMO-RUN-"), Without(b.value, "DEMO-RUN-");
           (j, k) in cmdb || (k, j) in cmdb
    {
    }

    /** The score does not depend on which alert is the primary. */
    lemma ScoreIsSymmetric(a: Alert, b: Alert)
      ensures Score(a, b) == Score(b, a)
    {
      assert Related(a.runId, b.runId) == Related(b.runId, a.runId);
    }

    // ----- deduplication

    function CountOf(s: seq<Alert>, f: string): nat {
      if s == [] then 0 else CountOf(s[..|s| - 1], f) + if Fingerprint(s[|s| - 1]) == f then 1 else 0
    }

    lemma {:induction false} InsertedCounts(key: Alert -> Key, s: seq<Alert>, x: Alert, f: string)
      ensures CountOf(Inserted(key, s, x), f) == CountOf(s, f) + if Fingerprint(x) == f then 1 else 0
      decreases |s|
    {
      var r := Inserted(key, s, x);
      if s == [] || AtMost(key(s[|s| - 1]), key(x)) {
        assert r[..|r| - 1] == s;
      } else {
        InsertedCounts(key, s[..|s| - 1], x, f);
        assert r[..|r| - 1] == Inserted(key, s[..|s| - 1], x);
      }
    }

    lemma {:induction false} SortedCounts(key: Alert -> Key, s: seq<Alert>, f: string)
      ensures CountOf(SortedBy(key, s), f) == CountOf(s, f)
      decreases |s|
    {
      if s != [] {
        SortedCounts(key, s[..|s| - 1], f);
        InsertedCounts(key, SortedBy(key, s[..|s| - 1]), s[|s| - 1], f);
      }
    }

    /** No two alerts of the list share a fingerprint. */
    predicate Distinct(s: seq<Alert>) {
      forall i, k :: 0 <= i < k < |s| ==> Fingerprint(s[i]) != Fingerprint(s[k])
    }

    /** How many alerts a list of representatives stands for. */
    function Weight(s: seq<Alert>, counts: map<string, nat>): nat
      requires forall a :: a in s ==> Fingerprint(a) in counts
    {
      if s == [] then 0 else Weight(s[..|s| - 1], counts) + 1 + counts[Fingerprint(s[|s| - 1])]
    }

    lemma {:induction false} WeightElsewhere(s: seq<Alert>, counts: map<string, nat>, f: string, n: nat)
      requires forall a :: a in s ==> Fingerprint(a) in counts && Fingerprint(a) != f
      ensures Weight(s, counts[f := n]) == Weight(s, counts)
    {
      if s != [] {
        WeightElsewhere(s[..|s| - 1], counts, f, n);
      }
    }

    /** One more duplicate of a represented fingerprint adds one. */
    lemma {:induction false} WeightBump(s: seq<Alert>, counts: map<string, nat>, f: string)
      requires Distinct(s) && (forall a :: a in s ==> Fingerprint(a) in counts) && f in counts
      requires HasFingerprint(s, f)
      ensures Weight(s, counts[f := counts[f] + 1]) == Weight(s, counts) + 1
      decreases |s|
    {
      hide Fingerprint;
      var front, last := s[..|s| - 1], s[|s| - 1];
      assert s == front + [last];
      if Fingerprint(last) == f {
        forall a | a in front ensures Fingerprint(a) != f {
          var i :| 0 <= i < |front| && front[i] == a;
        }
        WeightElsewhere(front, counts, f, counts[f] + 1);
      } else {
        var i :| 0 <= i < |s| && Fingerprint(s[i]) == f;
        assert front[i] == s[i];
        WeightBump(front, counts, f);
      }
    }

    /** The representatives are alerts of the list, one per fingerprint, and counted. */
    ghost predicate Chosen(unique: seq<Alert>, counts: map<string, nat>, alerts: seq<Alert>) {
      Distinct(unique) && forall a :: a in unique ==> a in alerts && Fingerprint(a) in counts
    }

    /** The table holds, for every fingerprint that occurs, how often it occurs beyond once. */
    ghost predicate Counted(counts: map<string, nat>, alerts: seq<Alert>) {
      && (forall f :: f in counts <==> CountOf(alerts, f) > 0)
      && (forall f :: f in counts ==> counts[f] + 1 == CountOf(alerts, f))
    }

    predicate HasFingerprint(s: seq<Alert>, f: string) {
      exists i :: 0 <= i < |s| && Fingerprint(s[i]) == f
    }

    /** Every fingerprint of the table has a representative. */
    ghost predicate Covering(unique: seq<Alert>, counts: map<string, nat>) {
      forall f :: f in counts ==> HasFingerprint(unique, f)
    }

    /** What deduplication of a list has established; the weight says that no alert is lost. */
    ghost predicate Represents(unique: seq<Alert>, counts: map<string, nat>, alerts: seq<Alert>) {
      && Chosen(unique, counts, alerts) && Counted(counts, alerts) && Covering(unique, counts)
      && Weight(unique, counts) == |alerts|
    }

    lemma CountSnoc(seen: seq<Alert>, a: Alert, f: string)
      ensures CountOf(seen + [a], f) == CountOf(seen, f) + if Fingerprint(a) == f then 1 else 0
    {
      var s := seen + [a];
      assert s[..|s| - 1] == seen;
    }

    lemma CountedSnoc(counts: map<string, nat>, seen: seq<Alert>, a: Alert)
      requires Counted(counts, seen)
      ensures var f := Fingerprint(a);
        Counted(counts[f := if f in counts then counts[f] + 1 else 0], seen + [a])
    {
      hide Fingerprint, CountOf;
      forall f ensures CountOf(seen + [a], f) == CountOf(seen, f) + if Fingerprint(a) == f then 1 else 0 {
        CountSnoc(seen, a, f);
      }
    }

    /** A first alert of its fingerprint becomes a representative. */
    lemma FirstRepresents(unique: seq<Alert>, counts: map<string, nat>, seen: seq<Alert>, a: Alert)
      requires Represents(unique, counts, seen) && Fingerprint(a) !in counts
      ensures Represents(unique + [a], counts[Fingerprint(a) := 0], seen + [a])
    {
      hide Fingerprint, CountOf, Counted;
      var f := Fingerprint(a);
      var u, c := unique + [a], counts[f := 0];
      CountedSnoc(counts, seen, a);
      assert u[..|u| - 1] == unique;
      WeightElsewhere(unique, counts, f, 0);
      forall g | g in c ensures HasFingerprint(u, g) {
        if g == f {
          assert u[|unique|] == a;
        } else {
          assert HasFingerprint(unique, g);
          var i :| 0 <= i < |unique| && Fingerprint(unique[i]) == g;
          assert u[i] == unique[i];
        }
      }
    }

    /** A further alert of a known fingerprint is counted. */
    lemma DuplicateCounts(unique: seq<Alert>, counts: map<string, nat>, seen: seq<Alert>, a: Alert)
      requires Represents(unique, counts, seen) && Fingerprint(a) in counts
      ensures Represents(unique, counts[Fingerprint(a) := counts[Fingerprint(a)] + 1], seen + [a])
    {
      hide Fingerprint, CountOf, Counted;
      var f := Fingerprint(a);
      CountedSnoc(counts, seen, a);
      assert HasFingerprint(unique, f);
      WeightBump(unique, counts, f);
    }

    predicate HasEarlier(unique: seq<Alert>, a: Alert) {
      exists i :: 0 <= i < |unique| && Fingerprint(unique[i]) == Fingerprint(a)
                  && unique[i].openedMicros <= a.openedMicros
    }

    /** Every alert of the second list has a representative opened no later. */
    ghost predicate Earliest(unique: seq<Alert>, alerts: seq<Alert>) {
      forall a :: a in alerts ==> HasEarlier(unique, a)
    }

    lemma NothingRepresented()
      ensures Represents([], map[], []) && Earliest([], [])
    {
    }

    lemma RepresentativeOf(unique: seq<Alert>, counts: map<string, nat>, alerts: seq<Alert>, f: string)
      returns (n: nat)
      requires Represents(unique, counts, alerts) && f in counts
      ensures n < |unique| && Fingerprint(unique[n]) == f && unique[n] in alerts
    {
      hide Fingerprint, Weight, Distinct, Counted;
      assert HasFingerprint(unique, f);
      n :| 0 <= n < |unique| && Fingerprint(unique[n]) == f;
      assert unique[n] in unique;
    }

    /** deduplicate: one alert per fingerprint, the earliest, and how many others each stands
        for. */
    method Deduplicate(alerts: seq<Alert>) returns (unique: seq<Alert>, counts: map<string, nat>)
      ensures Represents(unique, counts, alerts) && Earliest(unique, alerts)
    {
      hide Represents, SortedBy, Fingerprint, Earliest, InOrder;
      var sorted := SortedBy(TimeKey, alerts);
      SortedByIsPermutation(TimeKey, alerts);
      unique, counts := [], map[];
      NothingRepresented();
      assert sorted[..0] == [];
      var i := 0;
      while i < |sorted|
        invariant 0 <= i <= |sorted| && Represents(unique, counts, sorted[..i])
        invariant Earliest(unique, sorted[..i])
      {
        var a := sorted[i];
        assert sorted[..i + 1] == sorted[..i] + [a];
        ghost var before := unique;
        if Fingerprint(a) !in counts {
          FirstRepresents(unique, counts, sorted[..i], a);
          unique := unique + [a];
          counts := counts[Fingerprint(a) := 0];
          EarliestFirst(before, sorted[..i], a);
        } else {
          DuplicateCounts(unique, counts, sorted[..i], a);
          EarliestDuplicate(unique, counts, sorted, i);
          counts := counts[Fingerprint(a) := counts[Fingerprint(a)] + 1];
        }
        i := i + 1;
      }
      assert sorted[..i] == sorted;
      RepresentsUnsorted(unique, counts, alerts);
    }

    lemma EarliestFirst(unique: seq<Alert>, seen: seq<Alert>, a: Alert)
      requires Earliest(unique, seen)
      ensures Earliest(unique + [a], seen + [a])
    {
      hide Fingerprint;
      var u := unique + [a];
      forall x | x in seen + [a] ensures HasEarlier(u, x) {
        if x in seen {
          assert HasEarlier(unique, x);
          var i :| 0 <= i < |unique| && Fingerprint(unique[i]) == Fingerprint(x)
                   && unique[i].openedMicros <= x.openedMicros;
          assert u[i] == unique[i];
        } else {
          assert u[|unique|] == a;
        }
      }
    }

    lemma EarliestDuplicate(unique: seq<Alert>, counts: map<string, nat>, sorted: seq<Alert>, i: nat)
      requires i < |sorted| && InOrder(TimeKey, sorted) && Earliest(unique, sorted[..i])
      requires Represents(unique, counts, sorted[..i]) && Fingerprint(sorted[i]) in counts
      ensures Earliest(unique, sorted[..i] + [sorted[i]])
    {
      hide Fingerprint, Represents;
      var a := sorted[i];
      var n := RepresentativeOf(unique, counts, sorted[..i], Fingerprint(a));
      var k :| 0 <= k < i && sorted[k] == unique[n];
      assert AtMost(TimeKey(sorted[k]), TimeKey(sorted[i]));
      assert HasEarlier(unique, a);
    }

    lemma RepresentsUnsorted(unique: seq<Alert>, counts: map<string, nat>, alerts: seq<Alert>)
      requires Represents(unique, counts, SortedBy(TimeKey, alerts)) && Earliest(unique, SortedBy(TimeKey, alerts))
      ensures Represents(unique, counts, alerts) && Earliest(unique, alerts)
    {
      hide Fingerprint, SortedBy, Weight, Distinct, CountOf, Covering, HasEarlier;
      var sorted := SortedBy(TimeKey, alerts);
      SortedByIsPermutation(TimeKey, alerts);
      forall a ensures a in sorted <==> a in alerts {
        assert a in multiset(sorted) <==> a in multiset(alerts);
      }
      forall f ensures CountOf(sorted, f) == CountOf(alerts, f) {
        SortedCounts(TimeKey, alerts, f);
      }
    }

    // ----- clustering

    /** A list that begins with its primary and goes on with alerts that score high against it. */
    ghost predicate Cohesive(primary: Alert, cluster: seq<Alert>) {
      cluster != [] && cluster[0] == primary
      && forall i :: 0 < i < |cluster| ==> Score(primary, cluster[i]) >= minScore
    }

    ghost predicate AllBelow(primary: Alert, rest: seq<Alert>) {
      forall a :: a in rest ==> Score(primary, a) < minScore
    }

    /** The scores of a cluster's further members against its primary. */
    function MemberScores(cluster: seq<Alert>): seq<real>
      requires cluster != []
    {
      seq(|cluster| - 1, i requires 0 <= i < |cluster| - 1 => Score(cluster[0], cluster[i + 1]))
    }

    /** Gathering so far: both lists are in priority order, and nothing gathered comes after
        what is still to be looked at. */
    ghost predicate Interleaved(cluster: seq<Alert>, rest: seq<Alert>, i: nat) {
      && InOrder(PriorityKey, cluster) && InOrder(PriorityKey, rest)
      && forall j, k :: 0 <= j < |cluster| && i <= k < |rest| ==> AtMost(PriorityKey(cluster[j]), PriorityKey(rest[k]))
    }

    lemma TakenStaysInOrder(cluster: seq<Alert>, rest: seq<Alert>, i: nat)
      requires i < |rest| && Interleaved(cluster, rest, i)
      ensures Interleaved(cluster + [rest[i]], rest[..i] + rest[i + 1..], i)
    {
      hide SeverityRank;
      var r := rest[..i] + rest[i + 1..];
      forall k | 0 <= k < |r| ensures r[k] == rest[if k < i then k else k + 1] {
      }
    }

    /** The inner loop: alerts that correlate with the primary move, in order, from the
        unassigned list to its cluster. */
    method Gather(primary: Alert, others: seq<Alert>) returns (cluster: seq<Alert>, scores: seq<real>, rest: seq<Alert>)
      requires InOrder(PriorityKey, [primary] + others)
      ensures multiset(cluster) + multiset(rest) == multiset{primary} + multiset(others)
      ensures Cohesive(primary, cluster) && AllBelow(primary, rest)
      ensures scores == MemberScores(cluster)
      ensures InOrder(PriorityKey, cluster)
      ensures |rest| + |cluster| == |others| + 1
    {
      hide Score, SeverityRank, InOrder, Interleaved, MemberScores;
      cluster, scores, rest := [primary], [], others;
      PrimaryFirst(primary, others);
      NoScores(primary);
      var i := 0;
      while i < |rest|
        invariant 0 <= i <= |rest| && |rest| + |cluster| == |others| + 1
        invariant multiset(cluster) + multiset(rest) == multiset{primary} + multiset(others)
        invariant Cohesive(primary, cluster) && scores == MemberScores(cluster)
        invariant forall k :: 0 <= k < i ==> Score(primary, rest[k]) < minScore
        invariant Interleaved(cluster, rest, i)
        decreases |rest| - i
      {
        var candidate := rest[i];
        var score := Score(primary, candidate);
        if score >= minScore {
          PoppedOut(rest, i);
          TakenStaysInOrder(cluster, rest, i);
          OneMoreScore(cluster, candidate);
          cluster := cluster + [candidate];
          scores := scores + [score];
          rest := rest[..i] + rest[i + 1..];
        } else {
          LeftStaysInOrder(cluster, rest, i);
          i := i + 1;
        }
      }
      GatheredInOrder(cluster, rest, i);
    }

    lemma NoScores(primary: Alert)
      ensures MemberScores([primary]) == []
    {
    }

    lemma OneMoreScore(cluster: seq<Alert>, x: Alert)
      requires cluster != []
      ensures MemberScores(cluster + [x]) == MemberScores(cluster) + [Score(cluster[0], x)]
    {
      hide Score;
    }

    lemma PrimaryFirst(primary: Alert, others: seq<Alert>)
      requires InOrder(PriorityKey, [primary] + others)
      ensures Interleaved([primary], others, 0)
    {
      hide SeverityRank;
      var all := [primary] + others;
      assert forall k :: 0 <= k < |others| ==> others[k] == all[k + 1];
      assert all[0] == primary;
    }

    lemma LeftStaysInOrder(cluster: seq<Alert>, rest: seq<Alert>, i: nat)
      requires i < |rest| && Interleaved(cluster, rest, i)
      ensures Interleaved(cluster, rest, i + 1)
    {
    }

    lemma GatheredInOrder(cluster: seq<Alert>, rest: seq<Alert>, i: nat)
      requires Interleaved(cluster, rest, i)
      ensures InOrder(PriorityKey, cluster)
    {
    }

    lemma PoppedOut(s: seq<Alert>, i: nat)
      requires i < |s|
      ensures multiset(s[..i] + s[i + 1..]) + multiset{s[i]} == multiset(s)
    {
      assert s == s[..i] + [s[i]] + s[i + 1..];
    }

    /** The mean of the members' scores, or full confidence in a cluster of one. */
    function ClusterScore(scores: seq<real>): real {
      if scores == [] then 1.0 else Sum(scores) / |scores| as real
    }

    /** As often as there are members, the score adds up to their scores. */
    lemma ClusterScoreIsMean(scores: seq<real>)
      ensures scores == [] ==> ClusterScore(scores) == 1.0
      ensures ClusterScore(scores) * |scores| as real == Sum(scores)
    {
      if scores != [] {
        var s, n := Sum(scores), |scores| as real;
        assert s / n * n == s;
      }
    }

    /** sum of the duplicate counts of a cluster. */
    function Duplicates(s: seq<Alert>, counts: map<string, nat>): nat
      requires forall a :: a in s ==> Fingerprint(a) in counts
    {
      if s == [] then 0 else Duplicates(s[..|s| - 1], counts) + counts[Fingerprint(s[|s| - 1])]
    }

    function Members(clusters: seq<Cluster>): seq<Alert> {
      if clusters == [] then [] else Members(clusters[..|clusters| - 1]) + clusters[|clusters| - 1].alerts
    }

    /** How many alerts the clusters account for. */
    function Accounted(clusters: seq<Cluster>): nat {
      if clusters == [] then 0
      else
        var last := clusters[|clusters| - 1];
        Accounted(clusters[..|clusters| - 1]) + |last.alerts| + last.duplicates
    }

    /** One cluster on its own: its primary first, its members in priority order, each at or
        above the threshold, and the mean of their scores. */
    ghost predicate Sound(c: Cluster) {
      && Cohesive(c.primary, c.alerts) && InOrder(PriorityKey, c.alerts)
      && c.score == ClusterScore(MemberScores(c.alerts))
    }

    /** The clusters in their order: primaries by priority, and no alert that an earlier
        primary would have taken. */
    ghost predicate Greedy(clusters: seq<Cluster>) {
      && (forall i :: 0 <= i < |clusters| ==> Sound(clusters[i]))
      && (forall i, k :: 0 <= i < k < |clusters| ==>
            AtMost(PriorityKey(clusters[i].primary), PriorityKey(clusters[k].primary)))
      && (forall i, k :: 0 <= i < k < |clusters| ==> AllBelow(clusters[i].primary, clusters[k].alerts))
    }

    /** What is left comes after every primary, and no primary would have taken it. */
    ghost predicate Leftover(clusters: seq<Cluster>, rest: seq<Alert>) {
      forall i, a :: 0 <= i < |clusters| && a in rest ==>
        Score(clusters[i].primary, a) < minScore && AtMost(PriorityKey(clusters[i].primary), PriorityKey(a))
    }

    // ----- weights under rearrangement

    predicate Known(s: seq<Alert>, counts: map<string, nat>) {
      forall a :: a in s ==> Fingerprint(a) in counts
    }

    lemma {:induction false} WeightConcat(a: seq<Alert>, b: seq<Alert>, counts: map<string, nat>)
      requires Known(a, counts) && Known(b, counts)
      ensures Known(a + b, counts) && Weight(a + b, counts) == Weight(a, counts) + Weight(b, counts)
      decreases |b|
    {
      hide Fingerprint;
      if b == [] {
        assert a + b == a;
      } else {
        var front := b[..|b| - 1];
        WeightConcat(a, front, counts);
        assert (a + b)[..|a + b| - 1] == a + front;
      }
    }

    lemma WeightOne(a: Alert, counts: map<string, nat>)
      requires Known([a], counts)
      ensures Weight([a], counts) == 1 + counts[Fingerprint(a)]
    {
      hide Fingerprint;
      assert a in [a] && [a][..0] == [];
    }

    /** Taking one alert out of a list takes its weight out. */
    lemma WeightWithout(s: seq<Alert>, i: nat, counts: map<string, nat>)
      requires i < |s| && Known(s, counts)
      ensures Known(s[..i] + s[i + 1..], counts)
      ensures Weight(s, counts) == Weight(s[..i] + s[i + 1..], counts) + 1 + counts[Fingerprint(s[i])]
    {
      hide Fingerprint;
      var a, b, x := s[..i], s[i + 1..], [s[i]];
      WeightConcat(a, b, counts);
      WeightConcat(a, x, counts);
      WeightConcat(a + x, b, counts);
      WeightOne(s[i], counts);
      assert s == a + x + b;
    }

    lemma CancelOne(a: multiset<Alert>, b: multiset<Alert>, x: Alert)
      requires a + multiset{x} == b + multiset{x}
      ensures a == b
    {
      forall y ensures a[y] == b[y] {
        assert (a + multiset{x})[y] == (b + multiset{x})[y];
      }
    }

    /** Where a rearrangement has put the last alert of a list, and what is left without it. */
    lemma SameWithoutLast(x: seq<Alert>, y: seq<Alert>) returns (k: nat)
      requires multiset(x) == multiset(y) && x != []
      ensures k < |y| && y[k] == x[|x| - 1]
      ensures multiset(x[..|x| - 1]) == multiset(y[..k] + y[k + 1..])
    {
      var front, last := x[..|x| - 1], x[|x| - 1];
      assert x == front + [last] && last in multiset(y);
      k :| 0 <= k < |y| && y[k] == last;
      PoppedOut(y, k);
      CancelOne(multiset(front), multiset(y[..k] + y[k + 1..]), last);
    }

    lemma {:induction false} WeightOfSame(x: seq<Alert>, y: seq<Alert>, counts: map<string, nat>)
      requires multiset(x) == multiset(y) && Known(x, counts) && Known(y, counts)
      ensures Weight(x, counts) == Weight(y, counts)
      decreases |x|
    {
      hide Fingerprint;
      if x == [] {
        assert |multiset(y)| == 0;
        assert y == [];
      } else {
        var k := SameWithoutLast(x, y);
        WeightWithout(y, k, counts);
        WeightOfSame(x[..|x| - 1], y[..k] + y[k + 1..], counts);
      }
    }

    lemma {:induction false} DuplicatesWeigh(s: seq<Alert>, counts: map<string, nat>)
      requires Known(s, counts)
      ensures |s| + Duplicates(s, counts) == Weight(s, counts)
    {
      hide Fingerprint;
      if s != [] {
        DuplicatesWeigh(s[..|s| - 1], counts);
      }
    }

    // ----- one turn of the outer loop

    lemma RepresentativesAreKnown(unique: seq<Alert>, counts: map<string, nat>, alerts: seq<Alert>)
      requires Represents(unique, counts, alerts)
      ensures Known(unique, counts) && Weight(unique, counts) == |alerts|
    {
    }

    lemma NothingClustered(rest: seq<Alert>)
      ensures Greedy([]) && Leftover([], rest)
    {
    }

    lemma SortKeeps(s: seq<Alert>, counts: map<string, nat>)
      requires Known(s, counts) && s != []
      ensures var t := SortedBy(PriorityKey, s);
        && multiset(t) == multiset(s) && Known(t, counts) && InOrder(PriorityKey, t)
        && forall a :: a in s ==> AtMost(PriorityKey(t[0]), PriorityKey(a))
    {
      hide Fingerprint, SortedBy, SeverityRank;
      var t := SortedBy(PriorityKey, s);
      SortedByIsPermutation(PriorityKey, s);
      forall a ensures a in t <==> a in s {
        assert a in multiset(t) <==> a in multiset(s);
      }
      forall a | a in s ensures AtMost(PriorityKey(t[0]), PriorityKey(a)) {
        var k :| 0 <= k < |t| && t[k] == a;
        if k > 0 {
          assert AtMost(PriorityKey(t[0]), PriorityKey(t[k]));
        }
      }
    }

    /** Every alert that a turn handles was unassigned before it. */
    lemma FromUnassigned(s: seq<Alert>, members: seq<Alert>, rest: seq<Alert>, counts: map<string, nat>)
      requires multiset(members) + multiset(rest) == multiset(s) && Known(s, counts)
      ensures Known(members, counts) && Known(rest, counts)
      ensures forall a :: a in members || a in rest ==> a in s
    {
      hide Fingerprint;
      forall a | a in members || a in rest ensures a in s {
        assert a in multiset(members) + multiset(rest);
      }
    }

    /** The score of a cluster lies between the threshold and one. */
    lemma ScoreIsBounded(c: Cluster)
      requires Sound(c) && minScore <= 1.0
      ensures minScore <= c.score <= 1.0
    {
      hide Score;
      var scores := MemberScores(c.alerts);
      if scores != [] {
        forall i | 0 <= i < |scores| ensures minScore <= scores[i] <= 1.0 {
          assert scores[i] == Score(c.alerts[0], c.alerts[i + 1]);
        }
        MeanBetween(scores, minScore, 1.0);
      }
    }

    lemma ClusterJoins(clusters: seq<Cluster>, s: seq<Alert>, c: Cluster, rest: seq<Alert>)
      requires Greedy(clusters) && Leftover(clusters, s)
      requires Sound(c) && AllBelow(c.primary, rest)
      requires forall a :: a in c.alerts || a in rest ==> a in s
      requires forall a :: a in s ==> AtMost(PriorityKey(c.primary), PriorityKey(a))
      ensures Greedy(clusters + [c]) && Leftover(clusters + [c], rest)
    {
      hide Score, SeverityRank, MemberScores, InOrder;
      var cs := clusters + [c];
      assert c.primary in c.alerts;
      forall i, k | 0 <= i < k < |cs|
        ensures AtMost(PriorityKey(cs[i].primary), PriorityKey(cs[k].primary))
        ensures AllBelow(cs[i].primary, cs[k].alerts)
      {
        if k == |clusters| {
          assert cs[i] == clusters[i];
        }
      }
    }

    /** Each cluster reports the duplicates of its own members. */
    ghost predicate Counts(clusters: seq<Cluster>, counts: map<string, nat>) {
      forall i :: 0 <= i < |clusters| ==>
        Known(clusters[i].alerts, counts) && clusters[i].duplicates == Duplicates(clusters[i].alerts, counts)
    }

    lemma ClusterAccounts(clusters: seq<Cluster>, c: Cluster, s: seq<Alert>, rest: seq<Alert>, counts: map<string, nat>)
      requires multiset(c.alerts) + multiset(rest) == multiset(s)
      requires Known(s, counts) && Known(c.alerts, counts) && Known(rest, counts)
      requires c.duplicates == Duplicates(c.alerts, counts)
      ensures Accounted(clusters + [c]) + Weight(rest, counts) == Accounted(clusters) + Weight(s, counts)
      ensures multiset(Members(clusters + [c])) + multiset(rest) == multiset(Members(clusters)) + multiset(s)
    {
      hide Fingerprint;
      var cs := clusters + [c];
      assert cs[..|cs| - 1] == clusters;
      DuplicatesWeigh(c.alerts, counts);
      WeightConcat(c.alerts, rest, counts);
      WeightOfSame(c.alerts + rest, s, counts);
    }

    /** One turn: sort what is left, and gather the cluster of the first alert. */
    method NextCluster(s: seq<Alert>, counts: map<string, nat>) returns (cluster: Cluster, rest: seq<Alert>)
      requires Known(s, counts) && s != []
      ensures Sound(cluster) && AllBelow(cluster.primary, rest)
      ensures multiset(cluster.alerts) + multiset(rest) == multiset(s) && |rest| < |s|
      ensures Known(cluster.alerts, counts) && Known(rest, counts)
      ensures cluster.duplicates == Duplicates(cluster.alerts, counts)
      ensures forall a :: a in cluster.alerts || a in rest ==> a in s
      ensures forall a :: a in s ==> AtMost(PriorityKey(cluster.primary), PriorityKey(a))
    {
      hide Score, Fingerprint, SortedBy, AllBelow, SeverityRank, InOrder, MemberScores, Duplicates;
      SortKeeps(s, counts);
      var unassigned := SortedBy(PriorityKey, s);
      var primary := unassigned[0];
      assert unassigned == [primary] + unassigned[1..];
      var members, scores;
      members, scores, rest := Gather(primary, unassigned[1..]);
      FromUnassigned(s, members, rest, counts);
      cluster := Cluster(primary, members, Duplicates(members, counts), ClusterScore(scores));
      assert |multiset(members) + multiset(rest)| == |multiset(s)|;
    }

    /** correlate: the clusters partition the deduplicated alerts, account for every input
        alert, and are the greedy ones. */
    method Correlate(alerts: seq<Alert>)
      returns (clusters: seq<Cluster>, ghost unique: seq<Alert>, ghost counts: map<string, nat>)
      ensures Represents(unique, counts, alerts) && Earliest(unique, alerts)
      ensures multiset(Members(clusters)) == multiset(unique)
      ensures Accounted(clusters) == |alerts| && Counts(clusters, counts)
      ensures Greedy(clusters)
    {
      hide Represents, Earliest, Greedy, Leftover, Score, Fingerprint, SortedBy, AllBelow, SeverityRank,
        InOrder, MemberScores, Duplicates, Sound;
      var u, c := Deduplicate(alerts);
      unique, counts := u, c;
      clusters := [];
      RepresentativesAreKnown(u, c, alerts);
      var unassigned := u;
      NothingClustered(unassigned);
      while unassigned != []
        invariant multiset(Members(clusters)) + multiset(unassigned) == multiset(u)
        invariant Greedy(clusters) && Leftover(clusters, unassigned)
        invariant Known(unassigned, c) && Counts(clusters, c)
        invariant Accounted(clusters) + Weight(unassigned, c) == |alerts|
        decreases |unassigned|
      {
        var cluster, rest := NextCluster(unassigned, c);
        ClusterJoins(clusters, unassigned, cluster, rest);
        ClusterAccounts(clusters, cluster, unassigned, rest, c);
        clusters := clusters + [cluster];
        unassigned := rest;
      }
      assert multiset(unassigned) == multiset{};
    }
  }
}
