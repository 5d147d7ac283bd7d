/**
 assemble of datacenter/metrics/fetch.go as a whole: the response it refuses, the rows and sources
 it joins, the health it gives each source, and the order of the rows.
 */
module MetricsAssemble {
  import opened Wrappers
  import opened StringOrder
  import opened MetricsHealth
  import opened MetricsJoin

  // ---------- Which value samples are refused ----------

  /** Two selected value samples that cannot stand together, by their keys. */
  predicate KeysClash(a: Sample, b: Sample, gpu: bool) {
    if a.field == "up" || b.field == "up" then a.field == b.field && SourceKey(a.labels) == SourceKey(b.labels)
    else
      && RowKey(a.labels, gpu) == RowKey(b.labels, gpu)
      && (a.field == b.field || (gpu && a.labels.model != b.labels.model))
  }

  /**
   The same by the tuples of labels: a second "up" of a source, a second value of a field of a row,
   or another model name for the same device.
   */
  predicate Clash(a: Sample, b: Sample, gpu: bool) {
    if a.field == "up" || b.field == "up" then a.field == b.field && SourceTuple(a.labels) == SourceTuple(b.labels)
    else
      && RowTuple(a.labels, gpu) == RowTuple(b.labels, gpu)
      && (a.field == b.field || (gpu && a.labels.model != b.labels.model))
  }

  ghost predicate ClashesBefore(front: seq<Sample>, s: Sample, f: Filters, gpu: bool) {
    exists i :: 0 <= i < |front| && Selected(front[i].labels, f) && KeysClash(front[i], s, gpu)
  }

  predicate UpOf(s: Sample, f: Filters, k: string) {
    Selected(s.labels, f) && s.field == "up" && SourceKey(s.labels) == k
  }

  predicate SeenUp(j: Joined, k: string) {
    k in j.sources && j.sources[k].seenUp
  }

  ghost predicate UpsSeen(values: seq<Sample>, f: Filters, j: Joined) {
    && (forall i, k: string | 0 <= i < |values| && UpOf(values[i], f, k) :: SeenUp(j, k))
    && (forall k: string | SeenUp(j, k) :: exists i :: 0 <= i < |values| && UpOf(values[i], f, k))
  }

  predicate HasModel(j: Joined, key: string, model: string) {
    key in j.rows && j.rows[key].model == model
  }

  /** The rows are those that have a sample. */
  ghost predicate RowsOpened(values: seq<Sample>, f: Filters, gpu: bool, j: Joined) {
    && (forall i, key: string | 0 <= i < |values| && Feeds(values[i], f, gpu, key) :: key in j.rows)
    && (forall key: string | key in j.rows :: exists i :: 0 <= i < |values| && Feeds(values[i], f, gpu, key))
  }

  /** Every sample of a device's row names the row's model. */
  ghost predicate ModelsAgree(values: seq<Sample>, f: Filters, j: Joined) {
    forall i, key: string | 0 <= i < |values| && Feeds(values[i], f, true, key) ::
      HasModel(j, key, values[i].labels.model)
  }

  predicate Names(s: Sample, f: Filters, k: string) {
    Selected(s.labels, f) && SourceKey(s.labels) == k
  }

  /** The sources are those that selected value samples name. */
  ghost predicate SourcesNamed(values: seq<Sample>, f: Filters, j: Joined) {
    forall k: string :: k in j.sources <==> exists i :: 0 <= i < |values| && Names(values[i], f, k)
  }

  /** One value sample marks exactly its own source as seen. */
  lemma {:induction false} UpStep(j: Joined, s: Sample, f: Filters, gpu: bool)
    requires AddValue(j, s, f, gpu).Some?
    ensures forall k: string :: SeenUp(AddValue(j, s, f, gpu).value, k) <==> SeenUp(j, k) || UpOf(s, f, k)
  {
    hide KnownField, Selected, SourceKey, RowKey, StampKeys;
  }

  lemma {:induction false} UpsStep(front: seq<Sample>, s: Sample, f: Filters, gpu: bool, j: Joined)
    requires UpsSeen(front, f, j) && AddValue(j, s, f, gpu).Some?
    ensures UpsSeen(front + [s], f, AddValue(j, s, f, gpu).value)
  {
    UpStep(j, s, f, gpu);
    hide AddValue, UpOf, SeenUp;
    var values := front + [s];
    assert values[|front|] == s && forall i | 0 <= i < |front| :: values[i] == front[i];
    forall k: string | SeenUp(AddValue(j, s, f, gpu).value, k)
      ensures exists i :: 0 <= i < |values| && UpOf(values[i], f, k)
    {
      if SeenUp(j, k) {
        var i :| 0 <= i < |front| && UpOf(front[i], f, k);
        assert UpOf(values[i], f, k);
      } else {
        assert UpOf(values[|front|], f, k);
      }
    }
  }

  /** One value sample opens at most its own row, and leaves every row's model alone. */
  lemma {:induction false} ModelStep(j: Joined, s: Sample, f: Filters, gpu: bool)
    requires AddValue(j, s, f, gpu).Some?
    ensures var j' := AddValue(j, s, f, gpu).value;
            && (forall key: string :: key in j'.rows <==> key in j.rows || Feeds(s, f, gpu, key))
            && (forall key: string, m: string :: HasModel(j, key, m) ==> HasModel(j', key, m))
            && (gpu ==> forall key: string :: Feeds(s, f, gpu, key) ==> HasModel(j', key, s.labels.model))
  {
    hide KnownField, Selected, SourceKey, RowKey, StampKeys;
  }

  lemma {:induction false} OpenedStep(front: seq<Sample>, s: Sample, f: Filters, gpu: bool, j: Joined)
    requires RowsOpened(front, f, gpu, j) && AddValue(j, s, f, gpu).Some?
    ensures RowsOpened(front + [s], f, gpu, AddValue(j, s, f, gpu).value)
  {
    ModelStep(j, s, f, gpu);
    hide AddValue, Feeds, HasModel;
    var values, j' := front + [s], AddValue(j, s, f, gpu).value;
    assert values[|front|] == s && forall i | 0 <= i < |front| :: values[i] == front[i];
    forall key: string | key in j'.rows ensures exists i :: 0 <= i < |values| && Feeds(values[i], f, gpu, key) {
      if key in j.rows {
        var i :| 0 <= i < |front| && Feeds(front[i], f, gpu, key);
        assert Feeds(values[i], f, gpu, key);
      } else {
        assert Feeds(values[|front|], f, gpu, key);
      }
    }
  }

  lemma {:induction false} ModelsStep(front: seq<Sample>, s: Sample, f: Filters, j: Joined)
    requires ModelsAgree(front, f, j) && AddValue(j, s, f, true).Some?
    ensures ModelsAgree(front + [s], f, AddValue(j, s, f, true).value)
  {
    ModelStep(j, s, f, true);
    hide AddValue, Feeds, HasModel;
    var values := front + [s];
    assert values[|front|] == s && forall i | 0 <= i < |front| :: values[i] == front[i];
  }

  lemma {:induction false} SourceStep(j: Joined, s: Sample, f: Filters, gpu: bool)
    requires AddValue(j, s, f, gpu).Some?
    ensures forall k: string :: k in AddValue(j, s, f, gpu).value.sources <==> k in j.sources || Names(s, f, k)
  {
    hide KnownField, Selected, SourceKey, RowKey, StampKeys;
  }

  lemma {:induction false} NamedStep(front: seq<Sample>, s: Sample, f: Filters, gpu: bool, j: Joined)
    requires SourcesNamed(front, f, j) && AddValue(j, s, f, gpu).Some?
    ensures SourcesNamed(front + [s], f, AddValue(j, s, f, gpu).value)
  {
    SourceStep(j, s, f, gpu);
    hide AddValue, Names;
    var values := front + [s];
    assert values[|front|] == s && forall i | 0 <= i < |front| :: values[i] == front[i];
    forall k: string
      ensures (exists i :: 0 <= i < |values| && Names(values[i], f, k))
        <==> (exists i :: 0 <= i < |front| && Names(front[i], f, k)) || Names(s, f, k)
    {
      if i :| 0 <= i < |front| && Names(front[i], f, k) { assert Names(values[i], f, k); }
      if Names(s, f, k) { assert Names(values[|front|], f, k); }
    }
  }

  /** What the joined state remembers of the samples it was made from. */
  ghost predicate Remembers(values: seq<Sample>, f: Filters, gpu: bool, j: Joined) {
    && UpsSeen(values, f, j) && RowsOpened(values, f, gpu, j) && (gpu ==> ModelsAgree(values, f, j))
    && SourcesNamed(values, f, j) && RowsHold(values, f, gpu, j)
  }

  lemma {:induction false} JoinedRemembers(values: seq<Sample>, f: Filters, gpu: bool)
    requires AddValues(values, f, gpu).Some?
    ensures Remembers(values, f, gpu, AddValues(values, f, gpu).value)
    decreases |values|
  {
    RowsFollowSamples(values, f, gpu);
    hide AddValue, RowsHold;
    if values == [] {
      hide Feeds, UpOf, Names, HasModel;
    } else {
      var front, s := values[..|values| - 1], values[|values| - 1];
      assert values == front + [s];
      JoinedRemembers(front, f, gpu);
      hide UpsSeen, RowsOpened, ModelsAgree, SourcesNamed;
      var j := AddValues(front, f, gpu).value;
      UpsStep(front, s, f, gpu, j);
      OpenedStep(front, s, f, gpu, j);
      if gpu { ModelsStep(front, s, f, j); }
      NamedStep(front, s, f, gpu, j);
    }
  }

  lemma {:induction false} SecondUp(front: seq<Sample>, s: Sample, f: Filters, gpu: bool, j: Joined)
    requires UpsSeen(front, f, j) && s.field == "up"
    ensures SeenUp(j, SourceKey(s.labels)) <==> ClashesBefore(front, s, f, gpu)
  {
    hide Selected, SourceKey, RowKey, SeenUp;
    var k := SourceKey(s.labels);
    if SeenUp(j, k) {
      var i :| 0 <= i < |front| && UpOf(front[i], f, k);
      assert KeysClash(front[i], s, gpu);
    }
    if ClashesBefore(front, s, f, gpu) {
      var i :| 0 <= i < |front| && Selected(front[i].labels, f) && KeysClash(front[i], s, gpu);
      assert UpOf(front[i], f, k);
    }
  }

  predicate RowRefuses(j: Joined, s: Sample, gpu: bool) {
    var key := RowKey(s.labels, gpu);
    key in j.rows && ((gpu && j.rows[key].model != s.labels.model) || s.field in j.rows[key].values)
  }

  lemma {:induction false} SecondValue(front: seq<Sample>, s: Sample, f: Filters, gpu: bool, j: Joined)
    requires RowsHold(front, f, gpu, j) && RowsOpened(front, f, gpu, j) && (gpu ==> ModelsAgree(front, f, j))
      && s.field != "up"
    ensures RowRefuses(j, s, gpu) <==> ClashesBefore(front, s, f, gpu)
  {
    hide Selected, SourceKey, RowKey;
    var key := RowKey(s.labels, gpu);
    if RowRefuses(j, s, gpu) {
      if s.field in j.rows[key].values {
        assert HasField(j, key, s.field);
        var i :| 0 <= i < |front| && Carries(front[i], f, gpu, key, s.field);
        assert KeysClash(front[i], s, gpu);
      } else {
        var i :| 0 <= i < |front| && Feeds(front[i], f, gpu, key);
        assert HasModel(j, key, front[i].labels.model);
        assert KeysClash(front[i], s, gpu);
      }
    }
    if ClashesBefore(front, s, f, gpu) {
      var i :| 0 <= i < |front| && Selected(front[i].labels, f) && KeysClash(front[i], s, gpu);
      assert Feeds(front[i], f, gpu, key);
      if front[i].field == s.field {
        assert Carries(front[i], f, gpu, key, s.field);
        assert HasField(j, key, s.field);
      } else {
        assert HasModel(j, key, front[i].labels.model);
      }
    }
  }

  lemma {:induction false} AddValueFails(j: Joined, s: Sample, f: Filters, gpu: bool)
    ensures AddValue(j, s, f, gpu).None? <==>
      Selected(s.labels, f) &&
        (|| !KnownField(s.field, gpu, false)
         || (if s.field == "up" then SeenUp(j, SourceKey(s.labels)) else RowRefuses(j, s, gpu)))
  {
    hide Selected, KnownField, SourceKey, RowKey, StampKeys;
  }

  /** A sample among the values makes the response ambiguous. */
  ghost predicate Refused(values: seq<Sample>, n: nat, f: Filters, gpu: bool)
    requires n < |values|
  {
    && Selected(values[n].labels, f)
    && (|| !KnownField(values[n].field, gpu, false)
        || exists i :: 0 <= i < n && Selected(values[i].labels, f) && Clash(values[i], values[n], gpu))
  }

  lemma {:induction false} KeysClashAsTuples(a: Sample, b: Sample, gpu: bool)
    requires SafeLabels(a.labels) && SafeLabels(b.labels)
    ensures KeysClash(a, b, gpu) <==> Clash(a, b, gpu)
  {
    hide SafeLabels, RowKey, SourceKey, RowTuple, SourceTuple;
    KeysIdentify(a.labels, b.labels, gpu, "", "");
  }

  predicate AllSafe(samples: seq<Sample>) {
    forall i | 0 <= i < |samples| :: SafeLabels(samples[i].labels)
  }

  /** After values that joined, the next one is refused exactly when it clashes, by keys, with one of them. */
  lemma {:induction false} NextRefused(front: seq<Sample>, s: Sample, f: Filters, gpu: bool)
    requires AddValues(front, f, gpu).Some?
    ensures AddValue(AddValues(front, f, gpu).value, s, f, gpu).None? <==>
      Selected(s.labels, f) && (!KnownField(s.field, gpu, false) || ClashesBefore(front, s, f, gpu))
  {
    hide AddValue, AddValues, SeenUp, RowRefuses, ClashesBefore, RowsHold, UpsSeen, RowsOpened, ModelsAgree,
      SourcesNamed, Selected, KnownField;
    JoinedRemembers(front, f, gpu);
    var j := AddValues(front, f, gpu).value;
    AddValueFails(j, s, f, gpu);
    if s.field == "up" { SecondUp(front, s, f, gpu, j); } else { SecondValue(front, s, f, gpu, j); }
  }

  lemma {:induction false} LastRefused(values: seq<Sample>, f: Filters, gpu: bool)
    requires values != [] && AllSafe(values)
    requires AddValues(values[..|values| - 1], f, gpu).Some?
    ensures AddValues(values, f, gpu).None? <==> Refused(values, |values| - 1, f, gpu)
  {
    hide AddValue, Selected, KnownField, KeysClash, Clash, SafeLabels;
    var front, s := values[..|values| - 1], values[|values| - 1];
    NextRefused(front, s, f, gpu);
    forall i | 0 <= i < |front| ensures KeysClash(front[i], s, gpu) <==> Clash(values[i], s, gpu) {
      KeysClashAsTuples(values[i], s, gpu);
    }
    assert ClashesBefore(front, s, f, gpu)
      <==> exists i :: 0 <= i < |front| && Selected(values[i].labels, f) && Clash(values[i], s, gpu);
  }

  /** The values are refused exactly when one of them has an unknown field or clashes with an earlier one. */
  lemma {:induction false} ValuesRefused(values: seq<Sample>, f: Filters, gpu: bool)
    requires AllSafe(values)
    ensures AddValues(values, f, gpu).None? <==> exists n :: 0 <= n < |values| && Refused(values, n, f, gpu)
    decreases |values|
  {
    hide AddValue, Selected, KnownField, Clash, SafeLabels;
    if values != [] {
      var front := values[..|values| - 1];
      ValuesRefused(front, f, gpu);
      forall n | 0 <= n < |front| ensures Refused(front, n, f, gpu) <==> Refused(values, n, f, gpu) {
        assert forall i | 0 <= i <= n :: front[i] == values[i];
      }
      if AddValues(front, f, gpu).Some? {
        LastRefused(values, f, gpu);
        hide Refused, AddValues;
      }
    }
  }

  // ---------- Which timestamp samples are refused ----------

  function PlaceKey(s: Sample, gpu: bool): string {
    RowKey(s.labels, gpu) + NUL + SourceKey(s.labels) + NUL + s.field
  }

  predicate SamePlace(a: Sample, b: Sample, gpu: bool) {
    RowTuple(a.labels, gpu) == RowTuple(b.labels, gpu) && SourceTuple(a.labels) == SourceTuple(b.labels)
      && a.field == b.field
  }

  lemma {:induction false} PlaceKeysIdentify(a: Sample, b: Sample, gpu: bool)
    requires SafeLabels(a.labels) && SafeLabels(b.labels)
    ensures PlaceKey(a, gpu) == PlaceKey(b, gpu) <==> SamePlace(a, b, gpu)
  {
    hide RowKey, SourceKey, RowTuple, SourceTuple, Join, SafeAll, SafeLabels;
    var x, y := SourceKey(a.labels) + NUL + a.field, SourceKey(b.labels) + NUL + b.field;
    KeysAreJoins(a.labels, gpu);
    KeysAreJoins(b.labels, gpu);
    SafeTuples(a.labels, gpu);
    SafeTuples(b.labels, gpu);
    TupleSizes(a.labels, gpu);
    TupleSizes(b.labels, gpu);
    assert PlaceKey(a, gpu) == RowKey(a.labels, gpu) + NUL + x;
    assert PlaceKey(b, gpu) == RowKey(b.labels, gpu) + NUL + y;
    if PlaceKey(a, gpu) == PlaceKey(b, gpu) {
      PrefixIdentifies(RowTuple(a.labels, gpu), RowTuple(b.labels, gpu), x, y);
      PrefixIdentifies(SourceTuple(a.labels), SourceTuple(b.labels), a.field, b.field);
    }
  }

  /** A timestamp sample that counts: selected, and of a source that some value named. */
  predicate Counts(s: Sample, f: Filters, sources: set<string>) {
    Selected(s.labels, f) && SourceKey(s.labels) in sources
  }

  ghost predicate PlacesSeen(stamps: seq<Sample>, f: Filters, gpu: bool, sources: set<string>, seen: set<string>) {
    && (forall i | 0 <= i < |stamps| && Counts(stamps[i], f, sources) :: PlaceKey(stamps[i], gpu) in seen)
    && (forall x | x in seen ::
          exists i :: 0 <= i < |stamps| && Counts(stamps[i], f, sources) && PlaceKey(stamps[i], gpu) == x)
  }

  lemma {:induction false} PlaceStep(j: Joined, seen: set<string>, s: Sample, f: Filters, gpu: bool)
    ensures AddStamp(j, seen, s, f, gpu).None? <==>
      Selected(s.labels, f) &&
        (!KnownField(s.field, gpu, true) || (Counts(s, f, j.sources.Keys) && PlaceKey(s, gpu) in seen))
    ensures AddStamp(j, seen, s, f, gpu).Some? ==>
      var (j', seen') := AddStamp(j, seen, s, f, gpu).value;
      && j'.sources.Keys == j.sources.Keys
      && seen' == if Counts(s, f, j.sources.Keys) then seen + {PlaceKey(s, gpu)} else seen
  {
    hide Selected, KnownField, RowKey, SourceKey, StampField;
  }

  lemma {:induction false} PlacesStep(
    front: seq<Sample>, s: Sample, f: Filters, gpu: bool, sources: set<string>, seen: set<string>)
    requires PlacesSeen(front, f, gpu, sources, seen)
    ensures PlacesSeen(front + [s], f, gpu, sources, if Counts(s, f, sources) then seen + {PlaceKey(s, gpu)} else seen)
  {
    hide Counts, PlaceKey;
    var stamps := front + [s];
    assert stamps[|front|] == s && forall i | 0 <= i < |front| :: stamps[i] == front[i];
    forall x | x in seen
      ensures exists i :: 0 <= i < |stamps| && Counts(stamps[i], f, sources) && PlaceKey(stamps[i], gpu) == x
    {
      var i :| 0 <= i < |front| && Counts(front[i], f, sources) && PlaceKey(front[i], gpu) == x;
      assert Counts(stamps[i], f, sources);
    }
    if Counts(s, f, sources) { assert Counts(stamps[|front|], f, sources); }
  }

  lemma {:induction false} StampsRemember(j: Joined, stamps: seq<Sample>, f: Filters, gpu: bool)
    requires AddStamps(j, stamps, f, gpu).Some?
    ensures var (j', seen) := AddStamps(j, stamps, f, gpu).value;
            j'.sources.Keys == j.sources.Keys && PlacesSeen(stamps, f, gpu, j.sources.Keys, seen)
    decreases |stamps|
  {
    hide AddStamp, Counts, PlaceKey;
    if stamps != [] {
      var front, s := stamps[..|stamps| - 1], stamps[|stamps| - 1];
      assert stamps == front + [s];
      StampsRemember(j, front, f, gpu);
      hide PlacesSeen;
      var (before, seen) := AddStamps(j, front, f, gpu).value;
      PlaceStep(before, seen, s, f, gpu);
      PlacesStep(front, s, f, gpu, j.sources.Keys, seen);
    }
  }

  /** Timestamp sample n cannot be taken: its field is unknown, or an earlier one is for the same place. */
  ghost predicate StampRefused(sources: set<string>, stamps: seq<Sample>, n: nat, f: Filters, gpu: bool)
    requires n < |stamps|
  {
    && Selected(stamps[n].labels, f)
    && (|| !KnownField(stamps[n].field, gpu, true)
        || (&& Counts(stamps[n], f, sources)
            && exists i :: 0 <= i < n && Selected(stamps[i].labels, f) && SamePlace(stamps[i], stamps[n], gpu)))
  }

  lemma {:induction false} SeenBefore(
    front: seq<Sample>, s: Sample, f: Filters, gpu: bool, sources: set<string>, seen: set<string>)
    requires PlacesSeen(front, f, gpu, sources, seen) && Counts(s, f, sources) && AllSafe(front) && SafeLabels(s.labels)
    ensures PlaceKey(s, gpu) in seen
      <==> exists i :: 0 <= i < |front| && Selected(front[i].labels, f) && SamePlace(front[i], s, gpu)
  {
    hide PlaceKey, Selected, SafeLabels, SamePlace, SourceKey;
    forall i | 0 <= i < |front|
      ensures PlaceKey(front[i], gpu) == PlaceKey(s, gpu) <==> SamePlace(front[i], s, gpu)
      ensures SamePlace(front[i], s, gpu) ==> SourceKey(front[i].labels) == SourceKey(s.labels)
    {
      PlaceKeysIdentify(front[i], s, gpu);
      SamePlaceSameSource(front[i], s, gpu);
    }
  }

  lemma {:induction false} SamePlaceSameSource(a: Sample, b: Sample, gpu: bool)
    requires SafeLabels(a.labels) && SafeLabels(b.labels)
    ensures SamePlace(a, b, gpu) ==> SourceKey(a.labels) == SourceKey(b.labels)
  {
    hide SourceKey, RowTuple, SourceTuple, RowKey, SafeLabels;
    KeysIdentify(a.labels, b.labels, gpu, "", "");
  }

  lemma {:induction false} LastStampRefused(j: Joined, stamps: seq<Sample>, f: Filters, gpu: bool)
    requires stamps != [] && AllSafe(stamps)
    requires AddStamps(j, stamps[..|stamps| - 1], f, gpu).Some?
    ensures AddStamps(j, stamps, f, gpu).None? <==> StampRefused(j.sources.Keys, stamps, |stamps| - 1, f, gpu)
  {
    hide AddStamp, PlacesSeen, Selected, KnownField, SamePlace, SafeLabels, PlaceKey, SourceKey;
    var front, s := stamps[..|stamps| - 1], stamps[|stamps| - 1];
    StampsRemember(j, front, f, gpu);
    var (before, seen) := AddStamps(j, front, f, gpu).value;
    PlaceStep(before, seen, s, f, gpu);
    assert forall i | 0 <= i < |front| :: front[i] == stamps[i];
    if Counts(s, f, j.sources.Keys) { SeenBefore(front, s, f, gpu, j.sources.Keys, seen); }
  }

  lemma {:induction false} StampsRefused(j: Joined, stamps: seq<Sample>, f: Filters, gpu: bool)
    requires AllSafe(stamps)
    ensures AddStamps(j, stamps, f, gpu).None?
      <==> exists n :: 0 <= n < |stamps| && StampRefused(j.sources.Keys, stamps, n, f, gpu)
    decreases |stamps|
  {
    hide AddStamp, Selected, KnownField, SamePlace, SafeLabels, Counts;
    if stamps != [] {
      var front := stamps[..|stamps| - 1];
      StampsRefused(j, front, f, gpu);
      forall n | 0 <= n < |front|
        ensures StampRefused(j.sources.Keys, front, n, f, gpu) <==> StampRefused(j.sources.Keys, stamps, n, f, gpu)
      {
        assert forall i | 0 <= i <= n :: front[i] == stamps[i];
      }
      if AddStamps(j, front, f, gpu).Some? {
        LastStampRefused(j, stamps, f, gpu);
        hide StampRefused, AddStamps;
      }
    }
  }

  // ---------- The whole of it ----------

  datatype Problem = BadResponse | TooManyRows

  /** The joined samples, the health of each source, and the row keys in the order of the answer. */
  datatype Collected = Collected(joined: Joined, health: map<string, Health>, order: seq<string>)

  function MaxRows(gpu: bool): nat { if gpu then 512 else 256 }

  ghost predicate HealthAt(joined: Joined, now: real, k: string, h: Health)
    requires k in joined.sources
  {
    var source := joined.sources[k];
    HealthOf(source.up, source.stamps, source.required, now, h)
  }

  ghost predicate Collects(joined: Joined, now: real, c: Collected) {
    && c.joined == joined
    && c.health.Keys == joined.sources.Keys
    && (forall k | k in joined.sources :: HealthAt(joined, now, k, c.health[k]))
    && Ascending(c.order) && (forall k :: k in c.order <==> k in joined.rows)
  }

  /** What assemble answers: both passes, the row limit, then health and order. */
  ghost predicate Assembles(values: seq<Sample>, stamps: seq<Sample>, f: Filters, gpu: bool, now: real,
                            r: Result<Collected, Problem>) {
    match AddValues(values, f, gpu)
    case None => r == Failure(BadResponse)
    case Some(j) => match AddStamps(j, stamps, f, gpu)
      case None => r == Failure(BadResponse)
      case Some((joined, _)) =>
        if |joined.rows| > MaxRows(gpu) then r == Failure(TooManyRows) else r.Success? && Collects(joined, now, r.value)
  }

  method JoinSamples(values: seq<Sample>, stamps: seq<Sample>, f: Filters, gpu: bool) returns (r: Option<Joined>)
    ensures r == match AddValues(values, f, gpu)
                 case None => None
                 case Some(j) => match AddStamps(j, stamps, f, gpu)
                   case None => None
                   case Some((joined, _)) => Some(joined)
  {
    hide AddValue, AddStamp;
    var j := EMPTY;
    for i := 0 to |values|
      invariant AddValues(values[..i], f, gpu) == Some(j)
    {
      assert values[..i + 1][..i] == values[..i] && values[..i + 1][i] == values[i];
      var next := AddValue(j, values[i], f, gpu);
      if next.None? {
        FailStays(values, i + 1, f, gpu);
        return None;
      }
      j := next.value;
    }
    assert values[..|values|] == values;
    ghost var start := j;
    var seen: set<string> := {};
    for i := 0 to |stamps|
      invariant AddStamps(start, stamps[..i], f, gpu) == Some((j, seen))
    {
      assert stamps[..i + 1][..i] == stamps[..i] && stamps[..i + 1][i] == stamps[i];
      var next := AddStamp(j, seen, stamps[i], f, gpu);
      if next.None? {
        StampFailStays(start, stamps, i + 1, f, gpu);
        return None;
      }
      j, seen := next.value.0, next.value.1;
    }
    assert stamps[..|stamps|] == stamps;
    return Some(j);
  }

  method HealthOfSources(joined: Joined, now: real) returns (health: map<string, Health>)
    ensures health.Keys == joined.sources.Keys
    ensures forall k | k in joined.sources :: HealthAt(joined, now, k, health[k])
  {
    hide HealthOf;
    health := map[];
    var left := joined.sources.Keys;
    while left != {}
      invariant left <= joined.sources.Keys && health.Keys == joined.sources.Keys - left
      invariant forall k | k in health :: HealthAt(joined, now, k, health[k])
      decreases left
    {
      var k :| k in left;
      var source := joined.sources[k];
      var h := SourceFreshness(source.up, source.stamps, source.required, now);
      health := health[k := h];
      left := left - {k};
    }
  }

  method SortKeys(keys: set<string>) returns (order: seq<string>)
    ensures Ascending(order) && forall k :: k in order <==> k in keys
  {
    hide InsertString, Ascending;
    order := [];
    NothingAscends();
    var left := keys;
    while left != {}
      invariant left <= keys && Ascending(order) && forall k :: k in order <==> k in keys - left
      decreases left
    {
      var k :| k in left;
      InsertKeeps(k, order);
      InsertAscends(k, order);
      order := InsertString(k, order);
      left := left - {k};
    }
  }

  method Assemble(values: seq<Sample>, stamps: seq<Sample>, f: Filters, gpu: bool, now: real)
    returns (r: Result<Collected, Problem>)
    ensures Assembles(values, stamps, f, gpu, now, r)
  {
    hide AddValues, AddStamps, HealthAt, Ascending;
    var joined := JoinSamples(values, stamps, f, gpu);
    if joined.None? {
      return Failure(BadResponse);
    }
    var health := HealthOfSources(joined.value, now);
    if |joined.value.rows| > MaxRows(gpu) {
      return Failure(TooManyRows);
    }
    var order := SortKeys(joined.value.rows.Keys);
    return Success(Collected(joined.value, health, order));
  }

  /** The maps are walked in any order, and still one response gets one answer. */
  lemma {:induction false} OneAnswer(values: seq<Sample>, stamps: seq<Sample>, f: Filters, gpu: bool, now: real,
                                     a: Result<Collected, Problem>, b: Result<Collected, Problem>)
    requires Assembles(values, stamps, f, gpu, now, a) && Assembles(values, stamps, f, gpu, now, b)
    ensures a == b
  {
    hide AddValues, AddStamps, HealthOf, Ascending;
    if a.Success? {
      var joined := a.value.joined;
      AscendingUnique(a.value.order, b.value.order);
      forall k | k in joined.sources ensures a.value.health[k] == b.value.health[k] {
        var source := joined.sources[k];
        OneHealth(source.up, source.stamps, source.required, now, a.value.health[k], b.value.health[k]);
      }
      assert a.value.health == b.value.health;
    }
  }

  /** Some selected value sample is of the source of this timestamp sample. */
  ghost predicate SourceNamed(values: seq<Sample>, f: Filters, s: Sample) {
    exists i :: 0 <= i < |values| && Selected(values[i].labels, f)
      && SourceTuple(values[i].labels) == SourceTuple(s.labels)
  }

  /** A timestamp sample makes the response ambiguous. */
  ghost predicate RefusedStamp(values: seq<Sample>, stamps: seq<Sample>, n: nat, f: Filters, gpu: bool)
    requires n < |stamps|
  {
    && Selected(stamps[n].labels, f)
    && (|| !KnownField(stamps[n].field, gpu, true)
        || (&& SourceNamed(values, f, stamps[n])
            && exists i :: 0 <= i < n && Selected(stamps[i].labels, f) && SamePlace(stamps[i], stamps[n], gpu)))
  }

  lemma {:induction false} CountsAsNamed(values: seq<Sample>, f: Filters, gpu: bool, s: Sample)
    requires AddValues(values, f, gpu).Some? && AllSafe(values) && SafeLabels(s.labels)
    ensures SourceKey(s.labels) in AddValues(values, f, gpu).value.sources <==> SourceNamed(values, f, s)
  {
    JoinedRemembers(values, f, gpu);
    hide AddValues, Selected, SourceKey, SourceTuple, SafeLabels, UpsSeen, RowsOpened, ModelsAgree, RowsHold, RowKey,
      RowTuple;
    forall i | 0 <= i < |values|
      ensures Names(values[i], f, SourceKey(s.labels))
         <==> Selected(values[i].labels, f) && SourceTuple(values[i].labels) == SourceTuple(s.labels)
    {
      KeysIdentify(values[i].labels, s.labels, gpu, "", "");
    }
  }

  /**
   A response is refused as ambiguous exactly when a selected value sample has an unknown field or
   clashes with an earlier one, or a selected timestamp sample has an unknown field or repeats, for
   a source that some value names, the place of an earlier one.
   */
  lemma {:induction false} RefusedExactly(values: seq<Sample>, stamps: seq<Sample>, f: Filters, gpu: bool, now: real,
                                          r: Result<Collected, Problem>)
    requires AllSafe(values) && AllSafe(stamps) && Assembles(values, stamps, f, gpu, now, r)
    ensures r == Failure(BadResponse) <==>
      || (exists n :: 0 <= n < |values| && Refused(values, n, f, gpu))
      || (exists n :: 0 <= n < |stamps| && RefusedStamp(values, stamps, n, f, gpu))
  {
    hide AddValues, AddStamps, Collects, Refused, Selected, KnownField, SamePlace, SafeLabels, SourceKey, SourceNamed;
    ValuesRefused(values, f, gpu);
    if AddValues(values, f, gpu).Some? {
      var j := AddValues(values, f, gpu).value;
      StampsRefused(j, stamps, f, gpu);
      forall n | 0 <= n < |stamps|
        ensures StampRefused(j.sources.Keys, stamps, n, f, gpu) <==> RefusedStamp(values, stamps, n, f, gpu)
      {
        CountsAsNamed(values, f, gpu, stamps[n]);
      }
    }
  }

  /** The rows of a response, by their tuples of labels. */
  function RowTuples(values: seq<Sample>, f: Filters, gpu: bool): set<seq<string>> {
    set i | 0 <= i < |values| && Selected(values[i].labels, f) && !(gpu && values[i].field == "up") ::
      RowTuple(values[i].labels, gpu)
  }

  lemma {:induction false} JoinIdentifies(p: seq<string>, q: seq<string>)
    requires p != [] && |p| == |q| && SafeAll(p) && SafeAll(q) && Join(p) == Join(q)
    ensures p == q
  {
    PrefixIdentifies(p, q, "", "");
  }

  predicate TuplesOf(tuples: set<seq<string>>, n: nat) {
    forall p | p in tuples :: |p| == n && SafeAll(p)
  }

  lemma {:induction false} AsManyKeys(tuples: set<seq<string>>, keys: set<string>, n: nat)
    requires n > 0 && TuplesOf(tuples, n) && keys == set p | p in tuples :: Join(p)
    ensures |keys| == |tuples|
    decreases tuples
  {
    hide Join, SafeAll;
    if tuples == {} {
      assert keys == {};
    } else {
      var p :| p in tuples;
      var fewer := set q | q in tuples - {p} :: Join(q);
      forall q | q in tuples - {p} ensures Join(q) != Join(p) {
        if Join(q) == Join(p) { JoinIdentifies(q, p); }
      }
      assert Join(p) !in fewer;
      assert keys == fewer + {Join(p)};
      AsManyKeys(tuples - {p}, fewer, n);
    }
  }

  lemma {:induction false} StampsKeepRows(j: Joined, stamps: seq<Sample>, f: Filters, gpu: bool)
    requires AddStamps(j, stamps, f, gpu).Some?
    ensures AddStamps(j, stamps, f, gpu).value.0.rows == j.rows
    decreases |stamps|
  {
    hide Selected, KnownField, RowKey, SourceKey, StampField;
    if stamps != [] { StampsKeepRows(j, stamps[..|stamps| - 1], f, gpu); }
  }

  lemma {:induction false} TupleIsKey(l: Labels, gpu: bool)
    requires SafeLabels(l)
    ensures RowKey(l, gpu) == Join(RowTuple(l, gpu))
    ensures |RowTuple(l, gpu)| == (if gpu then 5 else 3) && SafeAll(RowTuple(l, gpu))
  {
    hide RowKey, RowTuple, Join, SafeLabels, SafeAll;
    KeysAreJoins(l, gpu);
    TupleSizes(l, gpu);
    SafeTuples(l, gpu);
  }

  lemma {:induction false} KeyOfTuple(values: seq<Sample>, f: Filters, gpu: bool, j: Joined, key: string)
    requires RowsOpened(values, f, gpu, j) && AllSafe(values)
    ensures key in j.rows <==> exists p :: p in RowTuples(values, f, gpu) && Join(p) == key
  {
    hide RowKey, RowTuple, Join, SafeLabels, Selected;
    forall i | 0 <= i < |values| ensures RowKey(values[i].labels, gpu) == Join(RowTuple(values[i].labels, gpu)) {
      TupleIsKey(values[i].labels, gpu);
    }
    if key in j.rows {
      var i :| 0 <= i < |values| && Feeds(values[i], f, gpu, key);
      assert RowTuple(values[i].labels, gpu) in RowTuples(values, f, gpu);
    }
    if p :| p in RowTuples(values, f, gpu) && Join(p) == key {
      var i :| 0 <= i < |values| && Selected(values[i].labels, f) && !(gpu && values[i].field == "up")
               && RowTuple(values[i].labels, gpu) == p;
      assert Feeds(values[i], f, gpu, key);
    }
  }

  lemma {:induction false} RowsByTuple(values: seq<Sample>, f: Filters, gpu: bool)
    requires AddValues(values, f, gpu).Some? && AllSafe(values)
    ensures |AddValues(values, f, gpu).value.rows| == |RowTuples(values, f, gpu)|
  {
    JoinedRemembers(values, f, gpu);
    var rows, tuples := AddValues(values, f, gpu).value.rows, RowTuples(values, f, gpu);
    hide AddValues, UpsSeen, RowsOpened, ModelsAgree, SourcesNamed, RowsHold, Selected, RowKey, RowTuple, Join,
      SafeLabels, SafeAll;
    var n := if gpu then 5 else 3;
    forall p | p in tuples ensures |p| == n && SafeAll(p) {
      var i :| 0 <= i < |values| && RowTuple(values[i].labels, gpu) == p;
      TupleIsKey(values[i].labels, gpu);
    }
    hide RowTuples;
    forall key ensures key in rows <==> exists p :: p in tuples && Join(p) == key {
      KeyOfTuple(values, f, gpu, AddValues(values, f, gpu).value, key);
    }
    var keys := set p | p in tuples :: Join(p);
    assert rows.Keys == keys;
    AsManyKeys(tuples, keys, n);
    assert |rows| == |rows.Keys|;
  }

  /** An unambiguous response is refused for its size exactly when it has more than 256 hosts or 512 devices. */
  lemma {:induction false} TooManyExactly(
    values: seq<Sample>, stamps: seq<Sample>, f: Filters, gpu: bool, now: real, r: Result<Collected, Problem>)
    requires AllSafe(values) && Assembles(values, stamps, f, gpu, now, r)
    ensures r == Failure(TooManyRows) <==>
      r != Failure(BadResponse) && |RowTuples(values, f, gpu)| > if gpu then 512 else 256
  {
    hide AddValues, AddStamps, Collects, RowTuples, SafeLabels;
    if r != Failure(BadResponse) {
      RowsByTuple(values, f, gpu);
      StampsKeepRows(AddValues(values, f, gpu).value, stamps, f, gpu);
    }
  }

  lemma {:induction false} FailStays(values: seq<Sample>, n: nat, f: Filters, gpu: bool)
    requires n <= |values| && AddValues(values[..n], f, gpu) == None
    ensures AddValues(values, f, gpu) == None
    decreases |values|
  {
    hide AddValue;
    if n == |values| {
      assert values[..n] == values;
    } else {
      assert values[..|values| - 1][..n] == values[..n];
      FailStays(values[..|values| - 1], n, f, gpu);
    }
  }

  lemma {:induction false} StampFailStays(j: Joined, stamps: seq<Sample>, n: nat, f: Filters, gpu: bool)
    requires n <= |stamps| && AddStamps(j, stamps[..n], f, gpu) == None
    ensures AddStamps(j, stamps, f, gpu) == None
    decreases |stamps|
  {
    hide AddStamp;
    if n == |stamps| {
      assert stamps[..n] == stamps;
    } else {
      assert stamps[..|stamps| - 1][..n] == stamps[..n];
      StampFailStays(j, stamps[..|stamps| - 1], n, f, gpu);
    }
  }
}
