/**
 The fields of datacenter/metrics: what query.go asks for, what fetch.go takes, which raw fields a
 value rests on, and which samples count at all.
 */
module MetricsFields {
  import opened Wrappers
  import opened MetricsJoin
  import opened MetricsAssemble
  import opened MetricsStamps

  // ---------- What is asked for ----------

  /** The fields that query.go tags in the query for values. */
  function QueriedValues(gpu: bool): set<string> {
    (if gpu then {"util", "fb_used", "fb_free", "temperature", "power"} else {"cpu", "ram", "filesystem", "rx", "tx"})
      + {"up"}
  }

  /** The raw fields that query.go tags in the query for timestamps. */
  function QueriedRaws(gpu: bool): set<string> {
    (if gpu then {"util", "fb_used", "fb_free", "temperature", "power"}
     else {"cpu", "ram_available", "ram_total", "filesystem_available", "filesystem_size", "rx", "tx"}) + {"up"}
  }

  /** Exactly the fields that are asked for are taken. */
  lemma {:induction false} TakesWhatIsAsked(field: string, gpu: bool)
    ensures KnownField(field, gpu, false) <==> field in QueriedValues(gpu)
    ensures KnownField(field, gpu, true) <==> field in QueriedRaws(gpu)
  {
  }

  predicate ValueBehind(gpu: bool, field: string, raw: string) {
    field in QueriedValues(gpu) && field != "up" && raw in RawFields(field)
  }

  /** The one value field that a raw field is behind. */
  function FieldBehind(raw: string): string {
    if raw == "ram_available" || raw == "ram_total" then "ram"
    else if raw == "filesystem_available" || raw == "filesystem_size" then "filesystem" else raw
  }

  lemma {:induction false} RawIsAsked(gpu: bool, field: string, raw: string)
    requires ValueBehind(gpu, field, raw)
    ensures raw in QueriedRaws(gpu) && raw != "up" && field == FieldBehind(raw)
  {
  }

  lemma {:induction false} BehindRaw(gpu: bool, raw: string)
    requires raw in QueriedRaws(gpu) && raw != "up"
    ensures ValueBehind(gpu, FieldBehind(raw), raw)
  {
  }

  lemma {:induction false} RawsThereAre(field: string)
    ensures RawFields(field) != {}
  {
    assert field == "ram" ==> "ram_total" in RawFields(field);
    assert field == "filesystem" ==> "filesystem_size" in RawFields(field);
    assert field != "ram" && field != "filesystem" ==> field in RawFields(field);
  }

  /**
   Every value field rests on raw fields that can arrive, and every raw field that can arrive is
   behind exactly one value field; "up" is apart.
   */
  lemma {:induction false} RawsMatchValues(gpu: bool)
    ensures forall field | field in QueriedValues(gpu) && field != "up" ::
              RawFields(field) != {} && forall raw | raw in RawFields(field) :: raw in QueriedRaws(gpu) && raw != "up"
    ensures forall raw | raw in QueriedRaws(gpu) && raw != "up" ::
              exists field :: ValueBehind(gpu, field, raw) && forall other | ValueBehind(gpu, other, raw) ::
                other == field
  {
    hide QueriedValues, QueriedRaws, RawFields, FieldBehind;
    forall field | field in QueriedValues(gpu) && field != "up"
      ensures RawFields(field) != {} && forall raw | raw in RawFields(field) :: raw in QueriedRaws(gpu) && raw != "up"
    {
      RawsThereAre(field);
      forall raw | raw in RawFields(field) ensures raw in QueriedRaws(gpu) && raw != "up" {
        RawIsAsked(gpu, field, raw);
      }
    }
    forall raw | raw in QueriedRaws(gpu) && raw != "up"
      ensures exists field :: ValueBehind(gpu, field, raw) && forall other | ValueBehind(gpu, other, raw) ::
        other == field
    {
      BehindRaw(gpu, raw);
      forall other | ValueBehind(gpu, other, raw) ensures other == FieldBehind(raw) {
        RawIsAsked(gpu, other, raw);
      }
    }
  }

  // ---------- Which samples count ----------

  /** The first of these that is not empty, or the empty string. */
  function FirstNonEmpty(candidates: seq<string>): (r: string)
    ensures r == "" ==> forall i | 0 <= i < |candidates| :: candidates[i] == ""
    ensures r != "" ==> exists i ::
      && 0 <= i < |candidates| && candidates[i] == r && forall n | 0 <= n < i :: candidates[n] == ""
  {
    if candidates == [] then ""
    else if candidates[0] != "" then candidates[0]
    else FirstNonEmpty(candidates[1..])
  }

  lemma {:induction false} HostIsFirst(l: Labels)
    ensures Host(l) == FirstNonEmpty([l.hostLabel, l.hostname, l.instance])
  {
    assert [l.instance][1..] == [];
    assert FirstNonEmpty([l.instance]) == l.instance;
    assert [l.hostname, l.instance][1..] == [l.instance];
    assert FirstNonEmpty([l.hostname, l.instance]) == if l.hostname != "" then l.hostname else l.instance;
    assert [l.hostLabel, l.hostname, l.instance][1..] == [l.hostname, l.instance];
  }

  /** A filter that is set and differs from the label leaves a sample out. */
  predicate LeavesOut(wanted: string, actual: string) {
    wanted != "" && wanted != actual
  }

  /** Samples of another site, rack or host, and samples that are not live, change nothing. */
  lemma {:induction false} OthersAreIgnored(j: Joined, seen: set<string>, s: Sample, f: Filters, gpu: bool)
    requires || LeavesOut(f.site, s.labels.site) || LeavesOut(f.rack, s.labels.rack)
             || LeavesOut(f.host, FirstNonEmpty([s.labels.hostLabel, s.labels.hostname, s.labels.instance]))
             || (s.labels.dataMode != "" && s.labels.dataMode != "live")
    ensures AddValue(j, s, f, gpu) == Some(j) && AddStamp(j, seen, s, f, gpu) == Some((j, seen))
  {
    hide KnownField, RowKey, SourceKey, StampKeys, Host, FirstNonEmpty;
    HostIsFirst(s.labels);
  }

  /** All other samples count: a value goes to its row, and an unknown field is refused. */
  lemma {:induction false} TheRestCount(j: Joined, s: Sample, f: Filters, gpu: bool)
    requires !LeavesOut(f.site, s.labels.site) && !LeavesOut(f.rack, s.labels.rack)
    requires !LeavesOut(f.host, FirstNonEmpty([s.labels.hostLabel, s.labels.hostname, s.labels.instance]))
    requires s.labels.dataMode == "" || s.labels.dataMode == "live"
    ensures s.field !in QueriedValues(gpu) ==> AddValue(j, s, f, gpu).None?
    ensures s.field != "up" && AddValue(j, s, f, gpu).Some? ==>
      var rows := AddValue(j, s, f, gpu).value.rows;
      RowKey(s.labels, gpu) in rows && s.field in rows[RowKey(s.labels, gpu)].values
      && rows[RowKey(s.labels, gpu)].values[s.field] == s.value
  {
    TakesWhatIsAsked(s.field, gpu);
    hide KnownField, RowKey, SourceKey, StampKeys, Host, FirstNonEmpty, QueriedValues, QueriedRaws;
    HostIsFirst(s.labels);
  }

  // ---------- Health, field by field ----------

  /** The timestamps a value sample needs: for memory and file system those of both readings it is made of. */
  ghost predicate SampleFresh(stamps: seq<Sample>, f: Filters, gpu: bool, s: Sample, now: real) {
    if s.field == "ram" then
      FreshStamp(stamps, f, gpu, s.labels, "ram_available", now)
        && FreshStamp(stamps, f, gpu, s.labels, "ram_total", now)
    else if s.field == "filesystem" then
      && FreshStamp(stamps, f, gpu, s.labels, "filesystem_available", now)
      && FreshStamp(stamps, f, gpu, s.labels, "filesystem_size", now)
    else FreshStamp(stamps, f, gpu, s.labels, s.field, now)
  }

  /** This value sample is one of the source with these labels. */
  predicate OfSource(s: Sample, f: Filters, l: Labels) {
    Selected(s.labels, f) && SourceTuple(s.labels) == SourceTuple(l) && s.field != "up"
  }

  lemma {:induction false} FreshFieldByField(
    values: seq<Sample>, stamps: seq<Sample>, f: Filters, gpu: bool, l: Labels, picks: Sample -> bool, now: real)
    ensures ValuesFresh(values, stamps, f, gpu, l, picks, now) <==>
      forall i | 0 <= i < |values| && OfSource(values[i], f, l) && picks(values[i]) ::
        SampleFresh(stamps, f, gpu, values[i], now)
  {
    hide FreshStamp, Selected, SourceTuple;
    forall i | 0 <= i < |values| && OfSource(values[i], f, l)
      ensures SampleFresh(stamps, f, gpu, values[i], now) <==>
        forall raw | RestsOn(values[i], f, l, raw) :: FreshStamp(stamps, f, gpu, values[i].labels, raw, now)
    {
      RawsOf(stamps, f, gpu, values[i], l, now);
    }
    forall i, raw | 0 <= i < |values| && RestsOn(values[i], f, l, raw) ensures OfSource(values[i], f, l) {
    }
    hide RestsOn, OfSource, SampleFresh;
  }

  lemma {:induction false} RawsOf(stamps: seq<Sample>, f: Filters, gpu: bool, s: Sample, l: Labels, now: real)
    requires OfSource(s, f, l)
    ensures SampleFresh(stamps, f, gpu, s, now) <==>
      forall raw | RestsOn(s, f, l, raw) :: FreshStamp(stamps, f, gpu, s.labels, raw, now)
  {
    hide FreshStamp, Selected, SourceTuple;
    if s.field == "ram" {
      assert RestsOn(s, f, l, "ram_available") && RestsOn(s, f, l, "ram_total");
    } else if s.field == "filesystem" {
      assert RestsOn(s, f, l, "filesystem_available") && RestsOn(s, f, l, "filesystem_size");
    } else {
      assert RestsOn(s, f, l, s.field);
    }
  }

  /** HealthFromSamples with the raw fields of each value written out. */
  lemma {:induction false} HealthFieldByField(
    values: seq<Sample>, stamps: seq<Sample>, f: Filters, gpu: bool, now: real, c: Collected, l: Labels)
    requires Assembles(values, stamps, f, gpu, now, Success(c))
    requires AllSafe(values) && AllSafe(stamps) && SafeLabels(l) && SourceKey(l) in c.health
    ensures c.health[SourceKey(l)].healthy <==>
      && SaysUp(values, f, l, true) && FreshUp(stamps, f, l, now)
      && forall i | 0 <= i < |values| && OfSource(values[i], f, l) :: SampleFresh(stamps, f, gpu, values[i], now)
  {
    hide Assembles, SaysUp, FreshUp, SafeLabels, SourceKey, SampleFresh, OfSource, ValuesFresh;
    HealthFromSamples(values, stamps, f, gpu, now, c, l);
    FreshFieldByField(values, stamps, f, gpu, l, _ => true, now);
  }
}
