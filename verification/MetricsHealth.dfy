/**
 Freshness and health in datacenter/metrics/fetch.go. Times are real numbers of seconds.
 */
module MetricsHealth {
  import opened Wrappers

  const STALE_SECONDS: real := 120.0
  const FUTURE_SECONDS: real := 5.0

  datatype Freshness = Unknown | Fresh | Stale

  datatype Health = Health(up: Option<bool>, age: Option<real>, freshness: Freshness, healthy: bool)

  type Stamps = map<string, Option<real>>

  // ---------- One source ----------

  predicate Usable(stamps: Stamps, field: string, now: real) {
    field in stamps && stamps[field].Some? && 0.0 < stamps[field].value <= now + FUTURE_SECONDS
  }

  /** The oldest of these stamps. */
  ghost predicate IsOldest(stamps: Stamps, required: set<string>, now: real, oldest: real) {
    && (exists field :: field in required && Usable(stamps, field, now) && stamps[field].value == oldest)
    && (forall field | field in required && Usable(stamps, field, now) :: oldest <= stamps[field].value)
  }

  function AgeOf(now: real, oldest: real): real {
    if now - oldest < 0.0 then 0.0 else now - oldest
  }

  /** What sourceFreshness answers for the stamps a source or a row requires. */
  ghost predicate HealthOf(up: Option<bool>, stamps: Stamps, required: set<string>, now: real, h: Health) {
    && h.up == up
    && (if required == {} || exists field :: field in required && !Usable(stamps, field, now)
        then h.freshness == Unknown && h.age == None
        else
          && h.age.Some?
          && (exists oldest: real :: IsOldest(stamps, required, now, oldest) && h.age.value == AgeOf(now, oldest))
          && h.freshness == (if h.age.value > STALE_SECONDS then Stale else Fresh))
    && h.healthy == (up == Some(true) && h.freshness == Fresh)
  }

  method SourceFreshness(up: Option<bool>, stamps: Stamps, required: set<string>, now: real) returns (h: Health)
    ensures HealthOf(up, stamps, required, now, h)
  {
    h := Health(up, None, Unknown, false);
    var oldest: Option<real> := None;
    var left := required;
    while left != {}
      invariant left <= required
      invariant forall field | field in required - left :: Usable(stamps, field, now)
      invariant oldest.None? <==> left == required
      invariant oldest.Some? ==> IsOldest(stamps, required - left, now, oldest.value)
      decreases left
    {
      var field :| field in left;
      if field !in stamps || stamps[field].None? || stamps[field].value <= 0.0
         || stamps[field].value > now + FUTURE_SECONDS {
        assert !Usable(stamps, field, now);
        return;
      }
      assert Usable(stamps, field, now);
      var stamp := stamps[field].value;
      OldestStep(stamps, required, left, field, now, oldest);
      if oldest.None? || stamp < oldest.value {
        oldest := Some(stamp);
      }
      left := left - {field};
    }
    assert required - left == required;
    if oldest.Some? {
      var age := now - oldest.value;
      if age < 0.0 {
        age := 0.0;
      }
      assert IsOldest(stamps, required, now, oldest.value);
      h := h.(age := Some(age), freshness := Fresh);
      if age > STALE_SECONDS {
        h := h.(freshness := Stale);
      }
    }
    h := h.(healthy := up == Some(true) && h.freshness == Fresh);
  }

  lemma {:induction false} OldestStep(
    stamps: Stamps, required: set<string>, left: set<string>, field: string, now: real, oldest: Option<real>)
    requires left <= required && field in left && Usable(stamps, field, now)
    requires oldest.None? ==> left == required
    requires oldest.Some? ==> IsOldest(stamps, required - left, now, oldest.value)
    ensures var stamp := stamps[field].value;
            var next := if oldest.None? || stamp < oldest.value then stamp else oldest.value;
            IsOldest(stamps, required - (left - {field}), now, next)
  {
    var seen := required - (left - {field});
    assert seen == (required - left) + {field};
    if oldest.Some? {
      var f :| f in required - left && Usable(stamps, f, now) && stamps[f].value == oldest.value;
      assert f in seen;
    }
  }

  lemma {:induction false} OneHealth(
    up: Option<bool>, stamps: Stamps, required: set<string>, now: real, a: Health, b: Health)
    requires HealthOf(up, stamps, required, now, a) && HealthOf(up, stamps, required, now, b)
    ensures a == b
  {
    hide Usable;
    if a.age.Some? {
      var x: real :| IsOldest(stamps, required, now, x) && a.age.value == AgeOf(now, x);
      var y: real :| IsOldest(stamps, required, now, y) && b.age.value == AgeOf(now, y);
      assert x <= y && y <= x;
    }
  }

  /**
   A source is healthy exactly when it is up and each stamp it requires is present, positive, at
   most 120 s old and at most 5 s ahead.
   */
  lemma {:induction false} HealthyExactly(up: Option<bool>, stamps: Stamps, required: set<string>, now: real, h: Health)
    requires HealthOf(up, stamps, required, now, h) && required != {}
    ensures h.healthy <==>
      && up == Some(true)
      && forall field | field in required ::
           Usable(stamps, field, now) && stamps[field].value >= now - STALE_SECONDS
  {
    if forall field | field in required :: Usable(stamps, field, now) {
      var oldest: real :| IsOldest(stamps, required, now, oldest) && h.age.value == AgeOf(now, oldest);
    }
  }

  /** A stamp that says nothing: missing, not a number, not positive, or more than 5 s ahead. */
  predicate SaysNothing(stamps: Stamps, field: string, now: real) {
    field !in stamps || stamps[field].None? || stamps[field].value <= 0.0 || stamps[field].value > now + 5.0
  }

  /**
   Freshness and age: unknown when a stamp says nothing, otherwise stale when one is more than 120 s
   old and fresh when none is; the age is that of the oldest stamp, and never below zero.
   */
  lemma {:induction false} FreshnessExactly(
    up: Option<bool>, stamps: Stamps, required: set<string>, now: real, h: Health)
    requires HealthOf(up, stamps, required, now, h) && required != {}
    ensures h.freshness == Unknown <==> exists field :: field in required && SaysNothing(stamps, field, now)
    ensures h.freshness != Unknown ==>
      (h.freshness == Stale <==> exists field :: field in required && now - stamps[field].value > 120.0)
    ensures h.age.Some? <==> h.freshness != Unknown
    ensures h.age.Some? ==>
      && h.age.value >= 0.0
      && (forall field | field in required :: now - stamps[field].value <= h.age.value)
      && (h.age.value == 0.0 || exists field :: field in required && now - stamps[field].value == h.age.value)
  {
    assert forall field :: SaysNothing(stamps, field, now) <==> !Usable(stamps, field, now);
    if h.age.Some? {
      var oldest: real :| IsOldest(stamps, required, now, oldest) && h.age.value == AgeOf(now, oldest);
      var field :| field in required && Usable(stamps, field, now) && stamps[field].value == oldest;
      assert forall other | other in required :: oldest <= stamps[other].value;
    }
  }

  /** With fewer stamps required a fresh source stays fresh, and its age does not grow. */
  lemma {:induction false} FewerStampsNoWorse(
    up: Option<bool>, stamps: Stamps, some: set<string>, required: set<string>, now: real, h: Health, whole: Health)
    requires some <= required && some != {}
    requires HealthOf(up, stamps, some, now, h) && HealthOf(up, stamps, required, now, whole)
    requires whole.freshness == Fresh
    ensures h.freshness == Fresh && h.age.Some? && whole.age.Some? && h.age.value <= whole.age.value
    ensures whole.healthy ==> h.healthy
  {
    assert forall field | field in some :: Usable(stamps, field, now);
    var a: real :| IsOldest(stamps, some, now, a) && h.age.value == AgeOf(now, a);
    var b: real :| IsOldest(stamps, required, now, b) && whole.age.value == AgeOf(now, b);
    var field :| field in some && Usable(stamps, field, now) && stamps[field].value == a;
    assert b <= a;
  }

  // ---------- The summary of a row ----------

  datatype Summary = Summary(up: Option<bool>, age: Option<real>, freshness: Freshness)

  ghost predicate AnyDown(s: seq<Health>) {
    exists i :: 0 <= i < |s| && s[i].up == Some(false)
  }

  ghost predicate AllKnown(s: seq<Health>) {
    forall i | 0 <= i < |s| :: s[i].up.Some?
  }

  ghost predicate AnyWith(s: seq<Health>, f: Freshness) {
    exists i :: 0 <= i < |s| && s[i].freshness == f
  }

  /** The greatest age that is known. */
  ghost predicate IsGreatestAge(s: seq<Health>, age: Option<real>) {
    && (age.None? ==> forall i | 0 <= i < |s| :: s[i].age.None?)
    && (age.Some? ==>
          && (exists i :: 0 <= i < |s| && s[i].age == age)
          && (forall i | 0 <= i < |s| && s[i].age.Some? :: s[i].age.value <= age.value))
  }

  ghost predicate Summarizes(s: seq<Health>, r: Summary) {
    if s == [] then r == Summary(None, None, Unknown)
    else
      && r.up == (if AnyDown(s) then Some(false) else if AllKnown(s) then Some(true) else None)
      && r.freshness == (if AnyWith(s, Stale) then Stale else if AnyWith(s, Unknown) then Unknown else Fresh)
      && (if r.freshness == Unknown then r.age == None else IsGreatestAge(s, r.age))
  }

  method Summarize(sources: seq<Health>) returns (r: Summary)
    ensures Summarizes(sources, r)
  {
    if |sources| == 0 {
      return Summary(None, None, Unknown);
    }
    var up, upKnown, state := true, true, Fresh;
    var age: Option<real> := None;
    for i := 0 to |sources|
      invariant up <==> !AnyDown(sources[..i])
      invariant upKnown <==> AllKnown(sources[..i])
      invariant state == (if AnyWith(sources[..i], Stale) then Stale
                          else if AnyWith(sources[..i], Unknown) then Unknown else Fresh)
      invariant IsGreatestAge(sources[..i], age)
    {
      var s := sources[i];
      assert sources[..i + 1] == sources[..i] + [s];
      SummaryStep(sources[..i], s, age);
      if s.up.None? {
        upKnown := false;
      } else if !s.up.value {
        up := false;
      }
      if s.freshness == Stale {
        state := Stale;
      } else if s.freshness != Fresh && state != Stale {
        state := Unknown;
      }
      if s.age.Some? && (age.None? || s.age.value > age.value) {
        age := s.age;
      }
    }
    assert sources[..|sources|] == sources;
    var u: Option<bool> := None;
    if !up || upKnown {
      u := Some(up);
    }
    if state == Unknown {
      age := None;
    }
    return Summary(u, age, state);
  }

  lemma {:induction false} SummaryStep(front: seq<Health>, s: Health, age: Option<real>)
    requires IsGreatestAge(front, age)
    ensures AnyDown(front + [s]) <==> AnyDown(front) || s.up == Some(false)
    ensures AllKnown(front + [s]) <==> AllKnown(front) && s.up.Some?
    ensures forall f :: AnyWith(front + [s], f) <==> AnyWith(front, f) || s.freshness == f
    ensures IsGreatestAge(front + [s], if s.age.Some? && (age.None? || s.age.value > age.value) then s.age else age)
  {
    var t := front + [s];
    assert t[|front|] == s;
    forall i | 0 <= i < |front| ensures t[i] == front[i] {}
    if AnyDown(front) {
      var i :| 0 <= i < |front| && front[i].up == Some(false);
      assert t[i].up == Some(false);
    }
    forall f | AnyWith(front, f) ensures AnyWith(t, f) {
      var i :| 0 <= i < |front| && front[i].freshness == f;
      assert t[i].freshness == f;
    }
    if AllKnown(t) {
      forall i | 0 <= i < |front| ensures front[i].up.Some? { assert t[i].up.Some?; }
    }
    if age.Some? {
      var i :| 0 <= i < |front| && front[i].age == age;
      assert t[i].age == age;
    }
  }

  /**
   The summary of a row: down when some source is, up when every one is and there is one; stale when
   some source is, fresh when all are; and unless something is unknown the greatest known age.
   */
  lemma {:induction false} SummaryExactly(s: seq<Health>, r: Summary)
    requires Summarizes(s, r)
    ensures r.up == Some(false) <==> exists i :: 0 <= i < |s| && s[i].up == Some(false)
    ensures r.up == Some(true) <==> s != [] && forall i | 0 <= i < |s| :: s[i].up == Some(true)
    ensures r.freshness == Stale <==> exists i :: 0 <= i < |s| && s[i].freshness == Stale
    ensures r.freshness == Fresh <==> s != [] && forall i | 0 <= i < |s| :: s[i].freshness == Fresh
    ensures r.age.Some? ==> r.freshness != Unknown && exists i :: 0 <= i < |s| && s[i].age == r.age
    ensures r.freshness != Unknown ==>
      forall i | 0 <= i < |s| && s[i].age.Some? :: r.age.Some? && s[i].age.value <= r.age.value
  {
    forall i | 0 <= i < |s| && s[i].up.Some? ensures s[i].up == Some(true) || s[i].up == Some(false) {
      var up := s[i].up.value;
      assert s[i].up == if up then Some(true) else Some(false);
    }
  }

  predicate SomeAt(s: seq<Health>, h: Health) {
    exists i :: 0 <= i < |s| && s[i] == h
  }

  lemma {:induction false} SameMembers(a: seq<Health>, b: seq<Health>)
    requires multiset(a) == multiset(b)
    ensures forall i | 0 <= i < |a| :: SomeAt(b, a[i])
  {
    forall i | 0 <= i < |a| ensures SomeAt(b, a[i]) {
      assert a[i] in multiset(a);
      assert a[i] in multiset(b);
    }
  }

  lemma {:induction false} SameFlags(a: seq<Health>, b: seq<Health>, f: Freshness)
    requires multiset(a) == multiset(b)
    ensures AnyDown(a) ==> AnyDown(b)
    ensures AllKnown(b) ==> AllKnown(a)
    ensures AnyWith(a, f) ==> AnyWith(b, f)
  {
    SameMembers(a, b);
    forall i | 0 <= i < |a| ensures exists j :: 0 <= j < |b| && b[j] == a[i] {
      assert SomeAt(b, a[i]);
    }
  }

  lemma {:induction false} AgeBounds(a: seq<Health>, b: seq<Health>, x: Option<real>, y: Option<real>)
    requires multiset(a) == multiset(b) && IsGreatestAge(a, x) && IsGreatestAge(b, y)
    ensures x.Some? ==> y.Some? && x.value <= y.value
  {
    if x.Some? {
      SameMembers(a, b);
      var i :| 0 <= i < |a| && a[i].age == x;
      assert SomeAt(b, a[i]);
    }
  }

  /** The summary of a row does not depend on the order of its sources. */
  lemma {:induction false} SummaryIgnoresOrder(a: seq<Health>, b: seq<Health>, ra: Summary, rb: Summary)
    requires multiset(a) == multiset(b) && Summarizes(a, ra) && Summarizes(b, rb)
    ensures ra == rb
  {
    hide AnyDown, AllKnown, AnyWith, IsGreatestAge;
    assert |a| == |multiset(a)| == |multiset(b)| == |b|;
    SameFlags(a, b, Stale);
    SameFlags(b, a, Stale);
    SameFlags(a, b, Unknown);
    SameFlags(b, a, Unknown);
    if a != [] && ra.freshness != Unknown {
      AgeBounds(a, b, ra.age, rb.age);
      AgeBounds(b, a, rb.age, ra.age);
    }
  }
}
