/**
  Congestion alerts: which area statuses raise one, how severe it is, and
  the stable ordering of the result by severity.
 */
module Alerts {
  import opened Types
  import opened Stats

  /** An area raises an alert exactly when it is both dense and stagnant. */
  predicate Congested(s: AreaStatus)
  {
    s.density > 0.8 && s.stagnationRate > 0.5
  }

  /** Position in the output order: critical first, then danger, then warning. */
  function Rank(sev: Severity): nat
  {
    match sev
    case Critical => 0
    case Danger => 1
    case Warning => 2
  }

  /**
    The severity of an alert: critical when very dense AND very stagnant,
    else danger when dense OR stagnant past the second band, else warning.
   */
  function SeverityOf(density: real, stagnationRate: real): (sev: Severity)
    ensures sev == Severity.Critical <==> density > 0.9 && stagnationRate > 0.7
    ensures sev == Danger <==> !(density > 0.9 && stagnationRate > 0.7) && (density > 0.85 || stagnationRate > 0.6)
    ensures sev == Warning <==> !(density > 0.9 && stagnationRate > 0.7) && density <= 0.85 && stagnationRate <= 0.6
  {
    if density > 0.9 && stagnationRate > 0.7 then Severity.Critical
    else if density > 0.85 || stagnationRate > 0.6 then Danger
    else Warning
  }

  /** More density and more stagnation never make an alert less severe. */
  lemma SeverityMonotone(d1: real, r1: real, d2: real, r2: real)
    requires d1 <= d2 && r1 <= r2
    ensures Rank(SeverityOf(d2, r2)) <= Rank(SeverityOf(d1, r1))
  {
  }

  /**
    An area at 90% density where every occupant is stagnant is in danger,
    not critical: the critical band starts strictly above 90%.
   */
  lemma NinetyPercentFullyStagnantIsDanger(s: AreaStatus)
    requires s.density == 0.9 && s.stagnationRate == 1.0
    ensures Congested(s) && SeverityOf(s.density, s.stagnationRate) == Danger
  {
  }

  /**
    A hall of capacity 100 holding 90 visitors who all entered ten minutes
    ago, under the default five-minute threshold: density 0.9, stagnation
    1.0, and so a danger alert.
   */
  lemma NinetyStuckVisitorsScenario(area: AreaBounds, users: map<string, UserLocation>, history: seq<nat>, now: int)
    requires area.capacity == 100 && |users| == 90
    requires forall id :: id in users ==> users[id].areaId == area.id && now - users[id].enteredAt == 10 * 60 * 1000
    ensures var s := StatusOf(area, users, history, now, DefaultStagnationThresholdMinutes);
            && s.currentCount == 90 && s.density == 0.9 && s.stagnationRate == 1.0
            && Congested(s) && AlertOf(s).severity == Danger
  {
    assert Occupants(users, area.id) == users.Keys;
    assert Stagnant(users, area.id, now, DefaultStagnationThresholdMinutes) == users.Keys;
    assert |users.Keys| == 90;
  }

  /** The alert an area raises (its presentation fields left out). */
  function AlertOf(s: AreaStatus): (a: StagnationAlert)
    ensures a.areaId == s.areaId && a.areaName == s.areaName
    ensures a.severity == SeverityOf(s.density, s.stagnationRate)
  {
    StagnationAlert(s.areaId, s.areaName, SeverityOf(s.density, s.stagnationRate))
  }

  /** The alerts in status order, before sorting: one for each congested status. */
  function Candidates(statuses: seq<AreaStatus>): (r: seq<StagnationAlert>)
    ensures |r| <= |statuses|
  {
    if statuses == [] then []
    else
      var last := statuses[|statuses| - 1];
      Candidates(statuses[..|statuses| - 1]) + (if Congested(last) then [AlertOf(last)] else [])
  }

  /** Collecting over two runs of statuses is collecting over each, in order. */
  lemma {:induction false} CandidatesAppend(s: seq<AreaStatus>, t: seq<AreaStatus>)
    ensures Candidates(s + t) == Candidates(s) + Candidates(t)
    decreases |t|
  {
    if t == [] {
      assert s + t == s;
    } else {
      var n := |t| - 1;
      assert (s + t)[..|s + t| - 1] == s + t[..n];
      assert (s + t)[|s + t| - 1] == t[n];
      CandidatesAppend(s, t[..n]);
    }
  }

  /**
    Each status contributes its own alert once when congested and nothing
    otherwise; with `CandidatesAppend` this fixes both the order and the
    multiplicity of the candidates.
   */
  lemma CandidatesOfOne(s: AreaStatus)
    ensures Candidates([s]) == if Congested(s) then [AlertOf(s)] else []
  {
    assert [s][..0] == [];
  }

  /** An alert is among the candidates exactly when some congested status raises it. */
  lemma {:induction false} CandidatesExact(statuses: seq<AreaStatus>, a: StagnationAlert)
    ensures a in Candidates(statuses) <==>
            exists i :: 0 <= i < |statuses| && Congested(statuses[i]) && a == AlertOf(statuses[i])
  {
    if statuses != [] {
      var n := |statuses| - 1;
      var front := statuses[..n];
      CandidatesExact(front, a);
      if exists i :: 0 <= i < |statuses| && Congested(statuses[i]) && a == AlertOf(statuses[i]) {
        var i :| 0 <= i < |statuses| && Congested(statuses[i]) && a == AlertOf(statuses[i]);
        if i < n { assert front[i] == statuses[i]; }
      }
      if exists i :: 0 <= i < |front| && Congested(front[i]) && a == AlertOf(front[i]) {
        var i :| 0 <= i < |front| && Congested(front[i]) && a == AlertOf(front[i]);
        assert statuses[i] == front[i];
      }
    }
  }

  /** The alerts of one severity, in their original order. */
  function OfSeverity(alerts: seq<StagnationAlert>, sev: Severity): (r: seq<StagnationAlert>)
    ensures |r| <= |alerts|
    ensures forall k :: 0 <= k < |r| ==> r[k].severity == sev
    ensures forall a :: a in r ==> a in alerts
  {
    if alerts == [] then []
    else
      var last := alerts[|alerts| - 1];
      OfSeverity(alerts[..|alerts| - 1], sev) + (if last.severity == sev then [last] else [])
  }

  /** The output order: critical alerts, then danger, then warning, each group in input order. */
  function SortBySeverity(alerts: seq<StagnationAlert>): (r: seq<StagnationAlert>)
    ensures forall a :: a in r ==> a in alerts
  {
    OfSeverity(alerts, Severity.Critical) + OfSeverity(alerts, Danger) + OfSeverity(alerts, Warning)
  }

  ghost predicate SortedBySeverity(alerts: seq<StagnationAlert>)
  {
    forall i, j :: 0 <= i < j < |alerts| ==> Rank(alerts[i].severity) <= Rank(alerts[j].severity)
  }

  /** Selecting by severity distributes over concatenation. */
  lemma {:induction false} OfSeverityAppend(a: seq<StagnationAlert>, b: seq<StagnationAlert>, sev: Severity)
    ensures OfSeverity(a + b, sev) == OfSeverity(a, sev) + OfSeverity(b, sev)
    decreases |b|
  {
    if b == [] {
      assert a + b == a;
    } else {
      var n := |b| - 1;
      assert (a + b)[..|a + b| - 1] == a + b[..n];
      assert (a + b)[|a + b| - 1] == b[n];
      OfSeverityAppend(a, b[..n], sev);
    }
  }

  /** Selecting one severity out of alerts that all have a severity keeps them all or none of them. */
  lemma {:induction false} OfSeverityOfUniform(a: seq<StagnationAlert>, s1: Severity, s2: Severity)
    requires forall k :: 0 <= k < |a| ==> a[k].severity == s1
    ensures OfSeverity(a, s2) == if s1 == s2 then a else []
  {
    if a != [] {
      var n := |a| - 1;
      OfSeverityOfUniform(a[..n], s1, s2);
      assert a[..n] + [a[n]] == a;
    }
  }

  /** Selecting a severity from three uniform groups laid end to end picks out that severity's group. */
  lemma SelectFromGroups(c: seq<StagnationAlert>, d: seq<StagnationAlert>, w: seq<StagnationAlert>, sev: Severity)
    requires forall k :: 0 <= k < |c| ==> c[k].severity == Severity.Critical
    requires forall k :: 0 <= k < |d| ==> d[k].severity == Danger
    requires forall k :: 0 <= k < |w| ==> w[k].severity == Warning
    ensures OfSeverity(c + d + w, sev) == match sev case Critical => c case Danger => d case Warning => w
  {
    OfSeverityAppend(c + d, w, sev);
    OfSeverityAppend(c, d, sev);
    OfSeverityOfUniform(c, Severity.Critical, sev);
    OfSeverityOfUniform(d, Danger, sev);
    OfSeverityOfUniform(w, Warning, sev);
    match sev
    case Critical => assert c + [] + [] == c;
    case Danger => assert [] + d + [] == d;
    case Warning => assert [] + [] + w == w;
  }

  /** The sorted list has every alert of each severity, in the original order: the sort is stable. */
  lemma SortBySeverityStable(alerts: seq<StagnationAlert>, sev: Severity)
    ensures OfSeverity(SortBySeverity(alerts), sev) == OfSeverity(alerts, sev)
  {
    SelectFromGroups(OfSeverity(alerts, Severity.Critical), OfSeverity(alerts, Danger), OfSeverity(alerts, Warning), sev);
  }

  /** The sorted list is ordered by rank. */
  lemma SortBySeveritySorted(alerts: seq<StagnationAlert>)
    ensures SortedBySeverity(SortBySeverity(alerts))
  {
    var c, d, w := OfSeverity(alerts, Severity.Critical), OfSeverity(alerts, Danger), OfSeverity(alerts, Warning);
    var r := c + d + w;
    forall k | 0 <= k < |r|
      ensures Rank(r[k].severity) == if k < |c| then 0 else if k < |c| + |d| then 1 else 2
    {
      if k < |c| { assert r[k] == c[k]; }
      else if k < |c| + |d| { assert r[k] == d[k - |c|]; }
      else { assert r[k] == w[k - |c| - |d|]; }
    }
  }

  /** Selecting from a list grown by one element. */
  lemma OfSeveritySnoc(front: seq<StagnationAlert>, x: StagnationAlert, sev: Severity)
    ensures OfSeverity(front + [x], sev) == OfSeverity(front, sev) + if x.severity == sev then [x] else []
  {
    assert (front + [x])[..|front|] == front;
  }

  /** Sorting a list grown by one element puts that element at the end of its severity's group. */
  lemma SortBySeveritySnoc(front: seq<StagnationAlert>, x: StagnationAlert)
    ensures var c, d, w := OfSeverity(front, Severity.Critical), OfSeverity(front, Danger), OfSeverity(front, Warning);
            SortBySeverity(front + [x]) == match x.severity
                                           case Critical => c + [x] + d + w
                                           case Danger => c + (d + [x]) + w
                                           case Warning => c + d + (w + [x])
  {
    OfSeveritySnoc(front, x, Severity.Critical);
    OfSeveritySnoc(front, x, Danger);
    OfSeveritySnoc(front, x, Warning);
  }

  /** The sorted list is a permutation of its input. */
  lemma {:induction false} SortBySeverityPermutes(alerts: seq<StagnationAlert>)
    ensures multiset(SortBySeverity(alerts)) == multiset(alerts)
  {
    if alerts != [] {
      var n := |alerts| - 1;
      var front, x := alerts[..n], alerts[n];
      assert alerts == front + [x];
      SortBySeverityPermutes(front);
      SortBySeveritySnoc(front, x);
      var c, d, w := OfSeverity(front, Severity.Critical), OfSeverity(front, Danger), OfSeverity(front, Warning);
      assert multiset(c + d + w) == multiset(front);
      match x.severity
      case Critical =>
        assert multiset(c + [x] + d + w) == multiset(c + d + w) + multiset{x};
      case Danger =>
        assert multiset(c + (d + [x]) + w) == multiset(c + d + w) + multiset{x};
      case Warning =>
        assert multiset(c + d + (w + [x])) == multiset(c + d + w) + multiset{x};
    }
  }

  /** Nothing of a severity after the given rank occurs in a list ranked at most that. */
  lemma {:induction false} OfSeverityAbsent(a: seq<StagnationAlert>, bound: nat, sev: Severity)
    requires forall k :: 0 <= k < |a| ==> Rank(a[k].severity) <= bound
    requires Rank(sev) > bound
    ensures OfSeverity(a, sev) == []
  {
    if a != [] {
      OfSeverityAbsent(a[..|a| - 1], bound, sev);
    }
  }

  /** A list sorted by rank is its critical, danger and warning alerts laid end to end. */
  lemma {:induction false} SortedIsGrouped(t: seq<StagnationAlert>)
    requires SortedBySeverity(t)
    ensures t == SortBySeverity(t)
  {
    if t != [] {
      var n := |t| - 1;
      var front, x := t[..n], t[n];
      assert t == front + [x];
      SortedFront(t, front, x);
      SortedIsGrouped(front);
      GroupedSnoc(front, x);
    }
  }

  /** Dropping the last element of a sorted list leaves a sorted list ranked no higher than the dropped one. */
  lemma SortedFront(t: seq<StagnationAlert>, front: seq<StagnationAlert>, x: StagnationAlert)
    requires SortedBySeverity(t) && t == front + [x]
    ensures SortedBySeverity(front)
    ensures forall k :: 0 <= k < |front| ==> Rank(front[k].severity) <= Rank(x.severity)
  {
    forall k | 0 <= k < |front| ensures Rank(front[k].severity) <= Rank(x.severity) {
      assert front[k] == t[k] && x == t[|front|];
    }
    forall i, j | 0 <= i < j < |front| ensures Rank(front[i].severity) <= Rank(front[j].severity) {
      assert front[i] == t[i] && front[j] == t[j];
    }
  }

  /** Appending an element of the highest rank so far to a grouped list keeps it grouped. */
  lemma GroupedSnoc(front: seq<StagnationAlert>, x: StagnationAlert)
    requires front == SortBySeverity(front)
    requires forall k :: 0 <= k < |front| ==> Rank(front[k].severity) <= Rank(x.severity)
    ensures front + [x] == SortBySeverity(front + [x])
  {
    SortBySeveritySnoc(front, x);
    var c, d, w := OfSeverity(front, Severity.Critical), OfSeverity(front, Danger), OfSeverity(front, Warning);
    match x.severity
    case Critical =>
      OfSeverityAbsent(front, 0, Danger);
      OfSeverityAbsent(front, 0, Warning);
      assert SortBySeverity(front + [x]) == c + [x] + [] + [];
    case Danger =>
      OfSeverityAbsent(front, 1, Warning);
      assert SortBySeverity(front + [x]) == c + (d + [x]) + [];
    case Warning =>
      assert SortBySeverity(front + [x]) == c + d + (w + [x]);
  }

  /**
    The sort is the only stable sort by rank: any list that is sorted by rank
    and keeps each severity's alerts in input order equals it.
   */
  lemma StableSortIsUnique(alerts: seq<StagnationAlert>, t: seq<StagnationAlert>)
    requires SortedBySeverity(t)
    requires forall sev :: OfSeverity(t, sev) == OfSeverity(alerts, sev)
    ensures t == SortBySeverity(alerts)
  {
    SortedIsGrouped(t);
    assert OfSeverity(t, Severity.Critical) == OfSeverity(alerts, Severity.Critical);
    assert OfSeverity(t, Danger) == OfSeverity(alerts, Danger);
    assert OfSeverity(t, Warning) == OfSeverity(alerts, Warning);
  }

  /**
    The alerts of a snapshot: one per congested status, ordered critical,
    danger, warning, with statuses of equal severity kept in input order.
   */
  method GenerateAlerts(statuses: seq<AreaStatus>) returns (alerts: seq<StagnationAlert>)
    ensures alerts == SortBySeverity(Candidates(statuses))
    ensures SortedBySeverity(alerts)
    ensures multiset(alerts) == multiset(Candidates(statuses))
    ensures forall sev :: OfSeverity(alerts, sev) == OfSeverity(Candidates(statuses), sev)
    ensures |alerts| <= |statuses|
  {
    alerts := [];
    var i := 0;
    while i < |statuses|
      invariant 0 <= i <= |statuses|
      invariant alerts == Candidates(statuses[..i])
    {
      var status := statuses[i];
      assert statuses[..i + 1][..i] == statuses[..i];
      if status.density > 0.8 && status.stagnationRate > 0.5 {
        var severity := Warning;
        if status.density > 0.9 && status.stagnationRate > 0.7 {
          severity := Severity.Critical;
        } else if status.density > 0.85 || status.stagnationRate > 0.6 {
          severity := Danger;
        }
        alerts := alerts + [StagnationAlert(status.areaId, status.areaName, severity)];
      }
      i := i + 1;
    }
    assert statuses[..i] == statuses;
    var found := alerts;
    alerts := SortBySeverity(found);
    SortBySeveritySorted(found);
    SortBySeverityPermutes(found);
    forall sev ensures OfSeverity(alerts, sev) == OfSeverity(found, sev) {
      SortBySeverityStable(found, sev);
    }
    assert |multiset(alerts)| == |multiset(found)|;
  }
}
