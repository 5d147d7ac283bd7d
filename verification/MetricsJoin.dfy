/**
 The joins of datacenter/metrics/fetch.go: strings glued with NUL stand in for tuples of labels,
 and a prefix test picks a row's stamps out of its source's.
 */
module MetricsJoin {
  import opened Wrappers
  import opened MetricsHealth

  const NUL: string := "\0"

  datatype Labels = Labels(
    site: string, rack: string, hostLabel: string, hostname: string, instance: string,
    job: string, gpu: string, uuid: string, model: string, dataMode: string)

  datatype Filters = Filters(site: string, rack: string, host: string)

  datatype Sample = Sample(labels: Labels, field: string, value: Option<real>)

  // ---------- Keys ----------

  predicate Safe(s: string) {
    forall i | 0 <= i < |s| :: s[i] != '\0'
  }

  predicate SafeLabels(l: Labels) {
    && Safe(l.site) && Safe(l.rack) && Safe(l.hostLabel) && Safe(l.hostname) && Safe(l.instance)
    && Safe(l.job) && Safe(l.gpu) && Safe(l.uuid) && Safe(l.model) && Safe(l.dataMode)
  }

  function Host(l: Labels): string {
    if l.hostLabel != "" then l.hostLabel else if l.hostname != "" then l.hostname else l.instance
  }

  function RowKey(l: Labels, gpu: bool): string {
    var k := l.site + NUL + l.rack + NUL + Host(l);
    if gpu then k + NUL + l.gpu + NUL + l.uuid else k
  }

  function SourceKey(l: Labels): string {
    RowKey(l, false) + NUL + l.job + NUL + l.instance
  }

  function StampKey(l: Labels, gpu: bool, raw: string): string {
    RowKey(l, gpu) + NUL + raw
  }

  /** The tuples that the keys stand for. */
  function RowTuple(l: Labels, gpu: bool): seq<string> {
    [l.site, l.rack, Host(l)] + if gpu then [l.gpu, l.uuid] else []
  }

  function SourceTuple(l: Labels): seq<string> {
    RowTuple(l, false) + [l.job, l.instance]
  }

  function Join(parts: seq<string>): string {
    if parts == [] then "" else if |parts| == 1 then parts[0] else parts[0] + NUL + Join(parts[1..])
  }

  predicate SafeAll(parts: seq<string>) {
    forall i | 0 <= i < |parts| :: Safe(parts[i])
  }

  lemma {:induction false} JoinMore(parts: seq<string>, last: string)
    requires parts != []
    ensures Join(parts + [last]) == Join(parts) + NUL + last
    decreases |parts|
  {
    if |parts| == 1 {
      assert (parts + [last])[1..] == [last];
    } else {
      JoinMore(parts[1..], last);
      assert (parts + [last])[1..] == parts[1..] + [last];
      assert parts[0] + NUL + (Join(parts[1..]) + NUL + last) == parts[0] + NUL + Join(parts[1..]) + NUL + last;
    }
  }

  lemma {:induction false} KeysAreJoins(l: Labels, gpu: bool)
    ensures RowKey(l, gpu) == Join(RowTuple(l, gpu))
    ensures SourceKey(l) == Join(SourceTuple(l))
  {
    hide Host;
    var s, r, h := l.site, l.rack, Host(l);
    JoinMore([s], r);
    JoinMore([s, r], h);
    assert [s] + [r] == [s, r] && [s, r] + [h] == [s, r, h];
    var k := s + NUL + r + NUL + h;
    assert Join([s, r, h]) == k;
    JoinMore([s, r, h], l.job);
    JoinMore([s, r, h] + [l.job], l.instance);
    assert [s, r, h] + [l.job] + [l.instance] == SourceTuple(l);
    JoinMore([s, r, h], l.gpu);
    JoinMore([s, r, h] + [l.gpu], l.uuid);
    assert [s, r, h] + [l.gpu] + [l.uuid] == RowTuple(l, true);
    assert [s, r, h] == RowTuple(l, false);
  }

  lemma {:induction false} FirstPart(a: string, x: string, b: string, y: string)
    requires Safe(a) && Safe(b) && a + NUL + x == b + NUL + y
    ensures a == b && x == y
    decreases |a|
  {
    var s, t := a + NUL + x, b + NUL + y;
    assert s[|a|] == '\0' && t[|b|] == '\0';
    assert forall i | 0 <= i < |a| :: s[i] == a[i];
    assert forall i | 0 <= i < |b| :: t[i] == b[i];
    assert |a| == |b|;
    assert a == s[..|a|] && b == t[..|b|] && x == s[|a| + 1..] && y == t[|b| + 1..];
  }

  lemma {:induction false} JoinSplit(p: seq<string>, x: string)
    requires |p| > 1
    ensures Join(p) + NUL + x == p[0] + NUL + (Join(p[1..]) + NUL + x)
  {
    assert Join(p) == p[0] + NUL + Join(p[1..]);
  }

  /** A joined key followed by NUL begins another such key only when the tuples are equal. */
  lemma {:induction false} PrefixIdentifies(p: seq<string>, q: seq<string>, x: string, y: string)
    requires p != [] && |p| == |q| && SafeAll(p) && SafeAll(q)
    requires Join(p) + NUL + x == Join(q) + NUL + y
    ensures p == q && x == y
    decreases |p|
  {
    if |p| == 1 {
      FirstPart(p[0], x, q[0], y);
      assert p == [p[0]] && q == [q[0]];
    } else {
      hide Join, Safe;
      var a, b := Join(p[1..]) + NUL + x, Join(q[1..]) + NUL + y;
      JoinSplit(p, x);
      JoinSplit(q, y);
      FirstPart(p[0], a, q[0], b);
      PrefixIdentifies(p[1..], q[1..], x, y);
      assert p == [p[0]] + p[1..] && q == [q[0]] + q[1..];
    }
  }

  lemma {:induction false} SafeTuples(l: Labels, gpu: bool)
    requires SafeLabels(l)
    ensures SafeAll(RowTuple(l, gpu)) && SafeAll(SourceTuple(l)) && Safe(Host(l))
  {
  }

  /** With NUL-free labels equal keys mean equal tuples. */
  lemma {:induction false} KeysIdentify(a: Labels, b: Labels, gpu: bool, raw: string, raw': string)
    requires SafeLabels(a) && SafeLabels(b)
    ensures RowKey(a, gpu) == RowKey(b, gpu) <==> RowTuple(a, gpu) == RowTuple(b, gpu)
    ensures SourceKey(a) == SourceKey(b) <==> SourceTuple(a) == SourceTuple(b)
    ensures StampKey(a, gpu, raw) == StampKey(b, gpu, raw') <==> RowTuple(a, gpu) == RowTuple(b, gpu) && raw == raw'
  {
    hide RowKey, SourceKey, RowTuple, SourceTuple, Join, SafeAll, SafeLabels;
    KeysAreJoins(a, gpu);
    KeysAreJoins(b, gpu);
    SafeTuples(a, gpu);
    SafeTuples(b, gpu);
    TupleSizes(a, gpu);
    TupleSizes(b, gpu);
    if RowKey(a, gpu) == RowKey(b, gpu) {
      PrefixIdentifies(RowTuple(a, gpu), RowTuple(b, gpu), "", "");
    }
    if SourceKey(a) == SourceKey(b) {
      PrefixIdentifies(SourceTuple(a), SourceTuple(b), "", "");
    }
    if StampKey(a, gpu, raw) == StampKey(b, gpu, raw') {
      PrefixIdentifies(RowTuple(a, gpu), RowTuple(b, gpu), raw, raw');
    }
  }

  lemma TupleSizes(l: Labels, gpu: bool)
    ensures |RowTuple(l, gpu)| == (if gpu then 5 else 3) && |SourceTuple(l)| == 5
  {
  }

  lemma {:induction false} StampIs(l: Labels, gpu: bool, raw: string)
    ensures StampKey(l, gpu, raw) == RowKey(l, gpu) + NUL + raw
  {
    hide RowKey;
  }

  /** The prefix test accepts exactly the stamps of its own row, and never the key "up". */
  lemma {:induction false} PrefixPicksRow(row: Labels, other: Labels, gpu: bool, raw: string)
    requires SafeLabels(row) && SafeLabels(other)
    ensures RowKey(row, gpu) + NUL <= StampKey(other, gpu, raw) <==> RowTuple(row, gpu) == RowTuple(other, gpu)
    ensures !(RowKey(row, gpu) + NUL <= "up")
  {
    hide RowKey, RowTuple, SourceKey, SourceTuple, SafeLabels, StampKey;
    var p, s := RowKey(row, gpu) + NUL, StampKey(other, gpu, raw);
    StampIs(other, gpu, raw);
    KeysIdentify(row, other, gpu, raw, raw);
    if p <= s {
      var more := s[|p|..];
      assert s == p + more;
      StampIs(row, gpu, more);
      KeysIdentify(row, other, gpu, more, raw);
    }
    assert '\0' == p[|p| - 1];
  }

  // ---------- Assembling the samples ----------

  datatype Source = Source(up: Option<bool>, seenUp: bool, stamps: map<string, Option<real>>, required: set<string>)

  datatype RowData = RowData(model: string, values: map<string, Option<real>>, sources: set<string>)

  datatype Joined = Joined(sources: map<string, Source>, rows: map<string, RowData>)

  const EMPTY := Joined(map[], map[])
  const NEW_SOURCE := Source(None, false, map[], {"up"})

  predicate Selected(l: Labels, f: Filters) {
    && (l.dataMode == "" || l.dataMode == "live")
    && (f.site == "" || l.site == f.site) && (f.rack == "" || l.rack == f.rack) && (f.host == "" || Host(l) == f.host)
  }

  predicate KnownField(field: string, gpu: bool, raw: bool) {
    if gpu then field in ["util", "fb_used", "fb_free", "temperature", "power", "up"]
    else if raw then
      field in ["cpu", "ram_available", "ram_total", "filesystem_available", "filesystem_size", "rx", "tx", "up"]
    else field in ["cpu", "ram", "filesystem", "rx", "tx", "up"]
  }

  function RawFields(field: string): set<string> {
    if field == "ram" then {"ram_available", "ram_total"}
    else if field == "filesystem" then {"filesystem_available", "filesystem_size"}
    else {field}
  }

  function StampKeys(l: Labels, gpu: bool, field: string): set<string> {
    set raw | raw in RawFields(field) :: StampKey(l, gpu, raw)
  }

  function SourceAt(j: Joined, k: string): Source {
    if k in j.sources then j.sources[k] else NEW_SOURCE
  }

  function RowAt(j: Joined, l: Labels, gpu: bool): RowData {
    if RowKey(l, gpu) in j.rows then j.rows[RowKey(l, gpu)] else RowData(l.model, map[], {})
  }

  /** A value sample; None when it makes the response ambiguous. */
  function AddValue(j: Joined, s: Sample, f: Filters, gpu: bool): Option<Joined> {
    var l, k := s.labels, SourceKey(s.labels);
    var source, row := SourceAt(j, k), RowAt(j, l, gpu);
    if !Selected(l, f) then Some(j)
    else if !KnownField(s.field, gpu, false) then None
    else if s.field == "up" then
      if source.seenUp then None
      else
        var up := if s.value == Some(0.0) then Some(false) else if s.value == Some(1.0) then Some(true) else source.up;
        var seen := j.(sources := j.sources[k := source.(seenUp := true, up := up)]);
        if gpu then Some(seen)
        else Some(seen.(rows := j.rows[RowKey(l, gpu) := row.(sources := row.sources + {k})]))
    else if gpu && row.model != l.model then None
    else if s.field in row.values then None
    else Some(Joined(
      j.sources[k := source.(required := source.required + StampKeys(l, gpu, s.field))],
      j.rows[RowKey(l, gpu) := row.(values := row.values[s.field := s.value], sources := row.sources + {k})]))
  }

  function StampField(s: Sample, gpu: bool): string {
    if s.field == "up" then "up" else StampKey(s.labels, gpu, s.field)
  }

  /** A timestamp sample; the keys already seen make a second one for the same place an error. */
  function AddStamp(j: Joined, seen: set<string>, s: Sample, f: Filters, gpu: bool): Option<(Joined, set<string>)> {
    var k := SourceKey(s.labels);
    if !Selected(s.labels, f) then Some((j, seen))
    else if !KnownField(s.field, gpu, true) then None
    else if k !in j.sources then Some((j, seen))
    else
      var key := RowKey(s.labels, gpu) + NUL + k + NUL + s.field;
      if key in seen then None
      else
        var source := j.sources[k];
        var stamped := source.(stamps := source.stamps[StampField(s, gpu) := s.value]);
        Some((j.(sources := j.sources[k := stamped]), seen + {key}))
  }

  function AddValues(values: seq<Sample>, f: Filters, gpu: bool): Option<Joined>
    decreases |values|
  {
    if values == [] then Some(EMPTY)
    else match AddValues(values[..|values| - 1], f, gpu)
      case None => None
      case Some(j) => AddValue(j, values[|values| - 1], f, gpu)
  }

  function AddStamps(j: Joined, stamps: seq<Sample>, f: Filters, gpu: bool): Option<(Joined, set<string>)>
    decreases |stamps|
  {
    if stamps == [] then Some((j, {}))
    else match AddStamps(j, stamps[..|stamps| - 1], f, gpu)
      case None => None
      case Some((before, seen)) => AddStamp(before, seen, stamps[|stamps| - 1], f, gpu)
  }

  // ---------- What a source requires, and what a row sees of it ----------

  /** This value sample makes the source with key k require the stamp x. */
  predicate Demands(s: Sample, f: Filters, gpu: bool, k: string, x: string) {
    Selected(s.labels, f) && s.field != "up" && SourceKey(s.labels) == k && x in StampKeys(s.labels, gpu, s.field)
  }

  ghost predicate Demanded(values: seq<Sample>, f: Filters, gpu: bool, k: string, x: string) {
    exists i :: 0 <= i < |values| && Demands(values[i], f, gpu, k, x)
  }

  ghost predicate RequiresExactly(values: seq<Sample>, f: Filters, gpu: bool, j: Joined) {
    && (forall k: string, x: string | k in j.sources ::
          x in j.sources[k].required <==> x == "up" || Demanded(values, f, gpu, k, x))
    && (forall k: string, x: string :: Demanded(values, f, gpu, k, x) ==> k in j.sources)
  }

  lemma {:induction false} DemandedSnoc(front: seq<Sample>, s: Sample, f: Filters, gpu: bool, k: string, x: string)
    ensures Demanded(front + [s], f, gpu, k, x) <==> Demanded(front, f, gpu, k, x) || Demands(s, f, gpu, k, x)
  {
    hide Demands;
    var values := front + [s];
    assert values[|front|] == s;
    if Demanded(front, f, gpu, k, x) {
      var i :| 0 <= i < |front| && Demands(front[i], f, gpu, k, x);
      assert values[i] == front[i];
    }
  }

  /** Each source requires "up" and exactly the stamps that its value samples call for. */
  lemma {:induction false} SourceRequirements(values: seq<Sample>, f: Filters, gpu: bool)
    requires AddValues(values, f, gpu).Some?
    ensures RequiresExactly(values, f, gpu, AddValues(values, f, gpu).value)
    decreases |values|
  {
    if values != [] {
      var front, s := values[..|values| - 1], values[|values| - 1];
      assert values == front + [s];
      SourceRequirements(front, f, gpu);
      RequirementStep(front, s, f, gpu, AddValues(front, f, gpu).value);
    }
  }

  lemma {:induction false} RequirementStep(front: seq<Sample>, s: Sample, f: Filters, gpu: bool, j: Joined)
    requires RequiresExactly(front, f, gpu, j) && AddValue(j, s, f, gpu).Some?
    ensures RequiresExactly(front + [s], f, gpu, AddValue(j, s, f, gpu).value)
  {
    hide Demanded, KnownField, Selected, SourceKey, StampKeys, RowKey;
    forall k: string, x: string
      ensures Demanded(front + [s], f, gpu, k, x) <==> Demanded(front, f, gpu, k, x) || Demands(s, f, gpu, k, x)
    {
      DemandedSnoc(front, s, f, gpu, k, x);
    }
  }

  /** rowHealth: the stamps of a source that the prefix test gives to a row. */
  function RowView(required: set<string>, row: Labels, gpu: bool): set<string> {
    {"up"} + set x | x in required && RowKey(row, gpu) + NUL <= x
  }

  /**
   A row sees "up" and exactly the stamps demanded by value samples of its own tuple on that
   source: no other device's stamp can stand in for its own.
   */
  lemma {:induction false} RowSeesItsOwnStamps(
    values: seq<Sample>, f: Filters, gpu: bool, row: Labels, k: string, x: string)
    requires AddValues(values, f, gpu).Some? && k in AddValues(values, f, gpu).value.sources
    requires SafeLabels(row) && forall i | 0 <= i < |values| :: SafeLabels(values[i].labels)
    ensures x in RowView(AddValues(values, f, gpu).value.sources[k].required, row, gpu) <==>
      || x == "up"
      || exists i ::
           && 0 <= i < |values| && Demands(values[i], f, gpu, k, x)
           && RowTuple(values[i].labels, gpu) == RowTuple(row, gpu)
  {
    hide AddValues, SafeLabels, RowTuple, RowKey, SourceKey;
    SourceRequirements(values, f, gpu);
    forall i | 0 <= i < |values| && Demands(values[i], f, gpu, k, x)
      ensures RowKey(row, gpu) + NUL <= x <==> RowTuple(row, gpu) == RowTuple(values[i].labels, gpu)
    {
      var raw :| raw in RawFields(values[i].field) && x == StampKey(values[i].labels, gpu, raw);
      PrefixPicksRow(row, values[i].labels, gpu, raw);
    }
    PrefixPicksRow(row, row, gpu, "");
    var required := AddValues(values, f, gpu).value.sources[k].required;
    assert x in required <==> x == "up" || Demanded(values, f, gpu, k, x);
  }

  /** A row's view of a fresh source is fresh, with no greater age, and healthy when the source is. */
  lemma {:induction false} RowViewNoWorse(
    values: seq<Sample>, f: Filters, gpu: bool, row: Labels, k: string, stamps: Stamps, now: real, h: Health,
    whole: Health)
    requires AddValues(values, f, gpu).Some? && k in AddValues(values, f, gpu).value.sources
    requires var source := AddValues(values, f, gpu).value.sources[k];
      && HealthOf(source.up, stamps, RowView(source.required, row, gpu), now, h)
      && HealthOf(source.up, stamps, source.required, now, whole)
    requires whole.freshness == Fresh
    ensures h.freshness == Fresh && h.age.Some? && whole.age.Some? && h.age.value <= whole.age.value
    ensures whole.healthy ==> h.healthy
  {
    hide AddValues, HealthOf, RowKey;
    SourceRequirements(values, f, gpu);
    var source := AddValues(values, f, gpu).value.sources[k];
    assert "up" in source.required;
    FewerStampsNoWorse(source.up, stamps, RowView(source.required, row, gpu), source.required, now, h, whole);
  }

  // ---------- What a row holds ----------

  /** This sample belongs to the row with this key: every selected one but a device's "up". */
  predicate Feeds(s: Sample, f: Filters, gpu: bool, key: string) {
    Selected(s.labels, f) && !(gpu && s.field == "up") && RowKey(s.labels, gpu) == key
  }

  predicate Carries(s: Sample, f: Filters, gpu: bool, key: string, field: string) {
    Feeds(s, f, gpu, key) && s.field == field != "up"
  }

  ghost predicate HasField(j: Joined, key: string, field: string) {
    key in j.rows && field in j.rows[key].values
  }

  ghost predicate HasSource(j: Joined, key: string, k: string) {
    key in j.rows && k in j.rows[key].sources
  }

  ghost predicate RowsHold(values: seq<Sample>, f: Filters, gpu: bool, j: Joined) {
    && (forall i, key: string, field: string | 0 <= i < |values| && Carries(values[i], f, gpu, key, field) ::
          HasField(j, key, field) && j.rows[key].values[field] == values[i].value)
    && (forall key: string, field: string | HasField(j, key, field) ::
          exists i :: 0 <= i < |values| && Carries(values[i], f, gpu, key, field))
    && (forall i, n, key: string, field: string |
          0 <= i < |values| && 0 <= n < |values| && Carries(values[i], f, gpu, key, field)
            && Carries(values[n], f, gpu, key, field) ::
          i == n)
  }

  ghost predicate SourcesHeld(values: seq<Sample>, f: Filters, gpu: bool, j: Joined) {
    && (forall i, key: string, k: string | 0 <= i < |values| && FeedsFrom(values[i], f, gpu, key, k) ::
          HasSource(j, key, k))
    && (forall key: string, k: string | HasSource(j, key, k) ::
          exists i :: 0 <= i < |values| && FeedsFrom(values[i], f, gpu, key, k))
  }

  /** This sample is the row's own, by its tuple of labels, for the field. */
  predicate ValueOf(s: Sample, f: Filters, gpu: bool, row: Labels, field: string) {
    Selected(s.labels, f) && RowTuple(s.labels, gpu) == RowTuple(row, gpu) && s.field == field != "up"
  }

  /** j' is j with exactly the value set that the sample carries, and nothing was there before. */
  ghost predicate FieldsSet(j: Joined, j': Joined, s: Sample, f: Filters, gpu: bool) {
    forall key: string, field: string ::
      && (HasField(j', key, field) <==> HasField(j, key, field) || Carries(s, f, gpu, key, field))
      && (HasField(j, key, field) ==>
            !Carries(s, f, gpu, key, field) && j'.rows[key].values[field] == j.rows[key].values[field])
      && (Carries(s, f, gpu, key, field) ==> j'.rows[key].values[field] == s.value)
  }

  lemma {:induction false} FieldStep(j: Joined, s: Sample, f: Filters, gpu: bool)
    requires AddValue(j, s, f, gpu).Some?
    ensures FieldsSet(j, AddValue(j, s, f, gpu).value, s, f, gpu)
  {
    hide KnownField, Selected, SourceKey, RowKey, StampKeys;
  }

  lemma {:induction false} RowsStep(front: seq<Sample>, s: Sample, f: Filters, gpu: bool, j: Joined)
    requires RowsHold(front, f, gpu, j) && AddValue(j, s, f, gpu).Some?
    ensures RowsHold(front + [s], f, gpu, AddValue(j, s, f, gpu).value)
  {
    hide AddValue, Feeds, HasField;
    FieldStep(j, s, f, gpu);
    var values, j' := front + [s], AddValue(j, s, f, gpu).value;
    assert values[|front|] == s && forall i | 0 <= i < |front| :: values[i] == front[i];
    forall key: string, field: string | HasField(j', key, field)
      ensures exists i :: 0 <= i < |values| && Carries(values[i], f, gpu, key, field)
    {
      if Carries(s, f, gpu, key, field) {
        assert Carries(values[|front|], f, gpu, key, field);
      } else {
        assert HasField(j, key, field);
        var i :| 0 <= i < |front| && Carries(front[i], f, gpu, key, field);
        assert Carries(values[i], f, gpu, key, field);
      }
    }
  }

  predicate FeedsFrom(s: Sample, f: Filters, gpu: bool, key: string, k: string) {
    Feeds(s, f, gpu, key) && SourceKey(s.labels) == k
  }

  lemma {:induction false} HoldStep(j: Joined, s: Sample, f: Filters, gpu: bool)
    requires AddValue(j, s, f, gpu).Some?
    ensures forall key: string, k: string ::
      HasSource(AddValue(j, s, f, gpu).value, key, k) <==> HasSource(j, key, k) || FeedsFrom(s, f, gpu, key, k)
  {
    hide KnownField, Selected, SourceKey, RowKey, StampKeys;
  }

  lemma {:induction false} SourcesStep(front: seq<Sample>, s: Sample, f: Filters, gpu: bool, j: Joined)
    requires SourcesHeld(front, f, gpu, j) && AddValue(j, s, f, gpu).Some?
    ensures SourcesHeld(front + [s], f, gpu, AddValue(j, s, f, gpu).value)
  {
    hide AddValue, HasSource, FeedsFrom;
    HoldStep(j, s, f, gpu);
    var values := front + [s];
    assert values[|front|] == s && forall i | 0 <= i < |front| :: values[i] == front[i];
    forall key: string, k: string | HasSource(AddValue(j, s, f, gpu).value, key, k)
      ensures exists i :: 0 <= i < |values| && FeedsFrom(values[i], f, gpu, key, k)
    {
      if FeedsFrom(s, f, gpu, key, k) {
        assert FeedsFrom(values[|front|], f, gpu, key, k);
      } else {
        var i :| 0 <= i < |front| && FeedsFrom(front[i], f, gpu, key, k);
        assert FeedsFrom(values[i], f, gpu, key, k);
      }
    }
  }

  lemma {:induction false} RowsFollowSamples(values: seq<Sample>, f: Filters, gpu: bool)
    requires AddValues(values, f, gpu).Some?
    ensures RowsHold(values, f, gpu, AddValues(values, f, gpu).value)
    ensures SourcesHeld(values, f, gpu, AddValues(values, f, gpu).value)
    decreases |values|
  {
    hide AddValue, Carries, Feeds, FeedsFrom, RowKey, SourceKey;
    if values != [] {
      var front, s := values[..|values| - 1], values[|values| - 1];
      assert values == front + [s];
      RowsFollowSamples(front, f, gpu);
      hide RowsHold, SourcesHeld;
      var j := AddValues(front, f, gpu).value;
      RowsStep(front, s, f, gpu, j);
      SourcesStep(front, s, f, gpu, j);
    }
  }

  /**
   Join exactness: a row has a value for a field exactly when one selected sample has the row's
   tuple and that field. There is only one such sample, the value is its own, and its source
   is among the row's.
   */
  lemma {:induction false} ValuesAreExact(values: seq<Sample>, f: Filters, gpu: bool, row: Labels, field: string)
    requires AddValues(values, f, gpu).Some?
    requires SafeLabels(row) && forall i | 0 <= i < |values| :: SafeLabels(values[i].labels)
    ensures var j := AddValues(values, f, gpu).value;
            && (HasField(j, RowKey(row, gpu), field) <==>
                  exists i :: 0 <= i < |values| && ValueOf(values[i], f, gpu, row, field))
            && forall i | 0 <= i < |values| && ValueOf(values[i], f, gpu, row, field) ::
                 && j.rows[RowKey(row, gpu)].values[field] == values[i].value
                 && SourceKey(values[i].labels) in j.rows[RowKey(row, gpu)].sources
                 && forall n | 0 <= n < |values| && ValueOf(values[n], f, gpu, row, field) :: n == i
  {
    hide AddValues, SafeLabels, RowTuple, RowKey, SourceKey, Selected;
    RowsFollowSamples(values, f, gpu);
    forall i | 0 <= i < |values|
      ensures RowKey(values[i].labels, gpu) == RowKey(row, gpu)
        <==> RowTuple(values[i].labels, gpu) == RowTuple(row, gpu)
    {
      KeysIdentify(values[i].labels, row, gpu, "", "");
    }
    var key := RowKey(row, gpu);
    assert forall i | 0 <= i < |values| ::
      Carries(values[i], f, gpu, key, field) <==> ValueOf(values[i], f, gpu, row, field);
    assert forall i | 0 <= i < |values| && ValueOf(values[i], f, gpu, row, field) ::
      FeedsFrom(values[i], f, gpu, key, SourceKey(values[i].labels))
      && HasSource(AddValues(values, f, gpu).value, key, SourceKey(values[i].labels));
  }
}
