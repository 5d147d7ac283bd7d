/**
 The timestamps of datacenter/metrics/fetch.go traced back to samples: which sample each stamp of a
 source comes from, and what the health of a source or a row then says about the samples.
 */
module MetricsStamps {
  import opened Wrappers
  import opened MetricsHealth
  import opened MetricsJoin
  import opened MetricsAssemble

  // ---------- The stamp that stays is the last one supplied ----------

  /** This timestamp sample is for the stamp x of the source with key k. */
  predicate Supplies(s: Sample, f: Filters, gpu: bool, k: string, x: string) {
    Selected(s.labels, f) && SourceKey(s.labels) == k && StampField(s, gpu) == x
  }

  ghost predicate LastSupply(stamps: seq<Sample>, f: Filters, gpu: bool, k: string, x: string, i: int) {
    && 0 <= i < |stamps| && Supplies(stamps[i], f, gpu, k, x)
    && forall n | i < n < |stamps| :: !Supplies(stamps[n], f, gpu, k, x)
  }

  /** The stamps hold x exactly when a sample supplies it, and then its last value. */
  ghost predicate Held(stamps: seq<Sample>, f: Filters, gpu: bool, held: Stamps, k: string, x: string) {
    && (x in held ==> exists i :: LastSupply(stamps, f, gpu, k, x, i) && stamps[i].value == held[x])
    && (forall i | 0 <= i < |stamps| && Supplies(stamps[i], f, gpu, k, x) :: x in held)
  }

  lemma {:induction false} HeldStep(
    front: seq<Sample>, s: Sample, f: Filters, gpu: bool, held: Stamps, next: Stamps, k: string, x: string)
    requires Held(front, f, gpu, held, k, x)
    requires x in next <==> x in held || Supplies(s, f, gpu, k, x)
    requires x in next ==> next[x] == if Supplies(s, f, gpu, k, x) then s.value else held[x]
    ensures Held(front + [s], f, gpu, next, k, x)
  {
    hide Supplies;
    var stamps := front + [s];
    assert stamps[|front|] == s && forall i | 0 <= i < |front| :: stamps[i] == front[i];
    if x in next {
      if Supplies(s, f, gpu, k, x) {
        assert LastSupply(stamps, f, gpu, k, x, |front|);
      } else {
        var i :| LastSupply(front, f, gpu, k, x, i) && front[i].value == held[x];
        assert LastSupply(stamps, f, gpu, k, x, i);
      }
    }
  }

  /** j' is j with exactly the stamps set that the sample supplies. */
  ghost predicate StampsSet(j: Joined, j': Joined, s: Sample, f: Filters, gpu: bool) {
    && j'.sources.Keys == j.sources.Keys
    && (forall k: string | k in j.sources ::
          j'.sources[k].required == j.sources[k].required && j'.sources[k].up == j.sources[k].up)
    && forall k: string, x: string | k in j.sources ::
         && (x in j'.sources[k].stamps <==> x in j.sources[k].stamps || Supplies(s, f, gpu, k, x))
         && (x in j'.sources[k].stamps ==>
               j'.sources[k].stamps[x] == if Supplies(s, f, gpu, k, x) then s.value else j.sources[k].stamps[x])
  }

  lemma {:induction false} StampStep(j: Joined, seen: set<string>, s: Sample, f: Filters, gpu: bool)
    requires AddStamp(j, seen, s, f, gpu).Some?
    ensures StampsSet(j, AddStamp(j, seen, s, f, gpu).value.0, s, f, gpu)
  {
    hide KnownField, Selected, SourceKey, RowKey, StampField;
  }

  ghost predicate AllHeld(stamps: seq<Sample>, f: Filters, gpu: bool, start: Joined, j: Joined) {
    && j.sources.Keys == start.sources.Keys
    && (forall k: string | k in j.sources ::
          j.sources[k].required == start.sources[k].required && j.sources[k].up == start.sources[k].up)
    && forall k: string, x: string | k in j.sources :: Held(stamps, f, gpu, j.sources[k].stamps, k, x)
  }

  lemma {:induction false} StampsStep(
    front: seq<Sample>, s: Sample, f: Filters, gpu: bool, start: Joined, j: Joined, seen: set<string>)
    requires AllHeld(front, f, gpu, start, j) && AddStamp(j, seen, s, f, gpu).Some?
    ensures AllHeld(front + [s], f, gpu, start, AddStamp(j, seen, s, f, gpu).value.0)
  {
    hide AddStamp, Supplies, Held;
    StampStep(j, seen, s, f, gpu);
    var j' := AddStamp(j, seen, s, f, gpu).value.0;
    forall k: string, x: string | k in j'.sources
      ensures Held(front + [s], f, gpu, j'.sources[k].stamps, k, x)
    {
      HeldStep(front, s, f, gpu, j.sources[k].stamps, j'.sources[k].stamps, k, x);
    }
  }

  predicate Unstamped(j: Joined) {
    forall k | k in j.sources :: j.sources[k].stamps == map[]
  }

  lemma {:induction false} StampsAreHeld(j: Joined, stamps: seq<Sample>, f: Filters, gpu: bool)
    requires AddStamps(j, stamps, f, gpu).Some? && Unstamped(j)
    ensures AllHeld(stamps, f, gpu, j, AddStamps(j, stamps, f, gpu).value.0)
    decreases |stamps|
  {
    hide AddStamp, AllHeld, Unstamped;
    if stamps == [] {
      NoStamps(f, gpu, j);
    } else {
      var front, s := stamps[..|stamps| - 1], stamps[|stamps| - 1];
      assert stamps == front + [s];
      StampsAreHeld(j, front, f, gpu);
      var (before, seen) := AddStamps(j, front, f, gpu).value;
      StampsStep(front, s, f, gpu, j, before, seen);
    }
  }

  lemma {:induction false} NoStamps(f: Filters, gpu: bool, j: Joined)
    requires Unstamped(j)
    ensures AllHeld([], f, gpu, j, j)
  {
  }

  lemma {:induction false} NoStampsYet(values: seq<Sample>, f: Filters, gpu: bool)
    requires AddValues(values, f, gpu).Some?
    ensures Unstamped(AddValues(values, f, gpu).value)
    decreases |values|
  {
    hide SourceKey, RowKey, Selected, KnownField, StampKeys;
    if values != [] { NoStampsYet(values[..|values| - 1], f, gpu); }
  }

  // ---------- Stamps by labels ----------

  /** Both passes went through. */
  predicate Joins(values: seq<Sample>, stamps: seq<Sample>, f: Filters, gpu: bool) {
    AddValues(values, f, gpu).Some? && AddStamps(AddValues(values, f, gpu).value, stamps, f, gpu).Some?
  }

  function JoinedOf(values: seq<Sample>, stamps: seq<Sample>, f: Filters, gpu: bool): Joined
    requires Joins(values, stamps, f, gpu)
  {
    AddStamps(AddValues(values, f, gpu).value, stamps, f, gpu).value.0
  }

  /** The timestamp sample for a raw field of the row and the source with these labels. */
  predicate StampOf(s: Sample, f: Filters, gpu: bool, l: Labels, raw: string) {
    && Selected(s.labels, f) && s.field == raw != "up"
    && RowTuple(s.labels, gpu) == RowTuple(l, gpu) && SourceTuple(s.labels) == SourceTuple(l)
  }

  /** A timestamp sample of "up" for the source with these labels. */
  predicate UpStampOf(s: Sample, f: Filters, l: Labels) {
    Selected(s.labels, f) && s.field == "up" && SourceTuple(s.labels) == SourceTuple(l)
  }

  lemma {:induction false} NotUp(l: Labels, gpu: bool, raw: string)
    ensures StampKey(l, gpu, raw) != "up"
  {
    var s := StampKey(l, gpu, raw);
    assert s[|RowKey(l, gpu)|] == '\0';
  }

  lemma {:induction false} SuppliesByLabels(s: Sample, f: Filters, gpu: bool, l: Labels, raw: string)
    requires SafeLabels(s.labels) && SafeLabels(l)
    ensures Supplies(s, f, gpu, SourceKey(l), StampKey(l, gpu, raw)) <==> StampOf(s, f, gpu, l, raw)
    ensures Supplies(s, f, gpu, SourceKey(l), "up") <==> UpStampOf(s, f, l)
  {
    hide Selected, SourceKey, StampKey, RowTuple, SourceTuple, SafeLabels;
    KeysIdentify(s.labels, l, gpu, s.field, raw);
    NotUp(l, gpu, raw);
    NotUp(s.labels, gpu, s.field);
  }

  /** Of two accepted timestamp samples of a named source no two are for the same place. */
  lemma {:induction false} PlacesDiffer(
    values: seq<Sample>, stamps: seq<Sample>, f: Filters, gpu: bool, l: Labels, i: nat, n: nat)
    requires Joins(values, stamps, f, gpu) && AllSafe(stamps) && SafeLabels(l)
    requires SourceKey(l) in JoinedOf(values, stamps, f, gpu).sources
    requires i < n < |stamps| && Selected(stamps[i].labels, f) && Selected(stamps[n].labels, f)
    requires SourceTuple(stamps[n].labels) == SourceTuple(l)
    ensures !SamePlace(stamps[i], stamps[n], gpu)
  {
    hide AddValues, AddStamps, Selected, KnownField, SamePlace, SafeLabels, SourceKey, SourceTuple, RowTuple,
      PlacesSeen;
    var j := AddValues(values, f, gpu).value;
    StampsRemember(j, stamps, f, gpu);
    StampsRefused(j, stamps, f, gpu);
    KeysIdentify(stamps[n].labels, l, gpu, "", "");
    assert !StampRefused(j.sources.Keys, stamps, n, f, gpu);
  }

  /**
   Stamp exactness: a source holds a stamp for a row and a raw field exactly when a selected
   timestamp sample has that row tuple, source tuple and field. There is only one, and the stamp
   is its value.
   */
  lemma {:induction false} StampsAreExact(
    values: seq<Sample>, stamps: seq<Sample>, f: Filters, gpu: bool, l: Labels, raw: string)
    requires Joins(values, stamps, f, gpu) && AllSafe(stamps) && SafeLabels(l)
    requires SourceKey(l) in JoinedOf(values, stamps, f, gpu).sources
    ensures var held, x := JoinedOf(values, stamps, f, gpu).sources[SourceKey(l)].stamps, StampKey(l, gpu, raw);
            && (x in held <==> exists i :: 0 <= i < |stamps| && StampOf(stamps[i], f, gpu, l, raw))
            && forall i | 0 <= i < |stamps| && StampOf(stamps[i], f, gpu, l, raw) ::
                 && held[x] == stamps[i].value
                 && forall n | 0 <= n < |stamps| && StampOf(stamps[n], f, gpu, l, raw) :: n == i
  {
    HeldOfSource(values, stamps, f, gpu, l, StampKey(l, gpu, raw));
    forall n | 0 <= n < |stamps|
      ensures Supplies(stamps[n], f, gpu, SourceKey(l), StampKey(l, gpu, raw)) <==> StampOf(stamps[n], f, gpu, l, raw)
    {
      SuppliesByLabels(stamps[n], f, gpu, l, raw);
    }
    forall i, n | 0 <= i < n < |stamps| && StampOf(stamps[n], f, gpu, l, raw)
      ensures !StampOf(stamps[i], f, gpu, l, raw)
    {
      if Selected(stamps[i].labels, f) { PlacesDiffer(values, stamps, f, gpu, l, i, n); }
    }
    hide Joins, JoinedOf, Supplies, StampOf, SafeLabels, SourceKey, StampKey;
    assert forall i, n | 0 <= i < |stamps| && 0 <= n < |stamps| && StampOf(stamps[i], f, gpu, l, raw)
                         && StampOf(stamps[n], f, gpu, l, raw) :: n == i;
  }

  lemma {:induction false} HeldOfSource(
    values: seq<Sample>, stamps: seq<Sample>, f: Filters, gpu: bool, l: Labels, x: string)
    requires Joins(values, stamps, f, gpu) && SourceKey(l) in JoinedOf(values, stamps, f, gpu).sources
    ensures SourceKey(l) in AddValues(values, f, gpu).value.sources
    ensures var j, source := AddValues(values, f, gpu).value, JoinedOf(values, stamps, f, gpu).sources[SourceKey(l)];
            && Held(stamps, f, gpu, source.stamps, SourceKey(l), x)
            && source.required == j.sources[SourceKey(l)].required && source.up == j.sources[SourceKey(l)].up
  {
    hide AddValues, AddStamps, Held, SourceKey, Unstamped;
    NoStampsYet(values, f, gpu);
    StampsAreHeld(AddValues(values, f, gpu).value, stamps, f, gpu);
  }

  ghost predicate LastUp(stamps: seq<Sample>, f: Filters, l: Labels, i: int) {
    0 <= i < |stamps| && UpStampOf(stamps[i], f, l) && forall n | i < n < |stamps| :: !UpStampOf(stamps[n], f, l)
  }

  /**
   The stamp "up" is that of the last selected sample for the source. Two samples for it differ in
   the device they name, so outside GPU mode there is only one.
   */
  lemma {:induction false} UpStampIsLast(values: seq<Sample>, stamps: seq<Sample>, f: Filters, gpu: bool, l: Labels)
    requires Joins(values, stamps, f, gpu) && AllSafe(stamps) && SafeLabels(l)
    requires SourceKey(l) in JoinedOf(values, stamps, f, gpu).sources
    ensures var held := JoinedOf(values, stamps, f, gpu).sources[SourceKey(l)].stamps;
            && ("up" in held <==> exists i :: 0 <= i < |stamps| && UpStampOf(stamps[i], f, l))
            && (forall i | LastUp(stamps, f, l, i) :: "up" in held && held["up"] == stamps[i].value)
    ensures forall i, n | 0 <= i < n < |stamps| && UpStampOf(stamps[i], f, l) && UpStampOf(stamps[n], f, l) ::
              gpu && RowTuple(stamps[i].labels, gpu) != RowTuple(stamps[n].labels, gpu)
  {
    HeldOfSource(values, stamps, f, gpu, l, "up");
    forall n | 0 <= n < |stamps|
      ensures Supplies(stamps[n], f, gpu, SourceKey(l), "up") <==> UpStampOf(stamps[n], f, l)
    {
      SuppliesByLabels(stamps[n], f, gpu, l, "");
    }
    forall i, n | 0 <= i < n < |stamps| && UpStampOf(stamps[i], f, l) && UpStampOf(stamps[n], f, l)
      ensures gpu && RowTuple(stamps[i].labels, gpu) != RowTuple(stamps[n].labels, gpu)
    {
      PlacesDiffer(values, stamps, f, gpu, l, i, n);
      SourceGivesRow(stamps[i].labels, stamps[n].labels);
    }
    hide Joins, JoinedOf, Supplies, UpStampOf, SafeLabels, SourceKey;
  }

  lemma {:induction false} SourceGivesRow(a: Labels, b: Labels)
    requires SourceTuple(a) == SourceTuple(b)
    ensures RowTuple(a, false) == RowTuple(b, false)
  {
    assert RowTuple(a, false) == SourceTuple(a)[..3] && RowTuple(b, false) == SourceTuple(b)[..3];
  }

  /**
   In GPU mode two "up" timestamps of one source are both taken exactly when they name different
   devices, and then the later one stays: the answer depends on their order.
   */
  lemma {:induction false} LaterUpWins(j: Joined, a: Sample, b: Sample, f: Filters)
    requires SafeLabels(a.labels) && SafeLabels(b.labels) && SourceKey(a.labels) in j.sources
    requires UpStampOf(a, f, a.labels) && UpStampOf(b, f, a.labels)
    ensures AddStamps(j, [a, b], f, true).Some? <==> RowTuple(a.labels, true) != RowTuple(b.labels, true)
    ensures AddStamps(j, [a, b], f, true).Some? ==>
      var after := AddStamps(j, [a, b], f, true).value.0;
      && SourceKey(a.labels) in after.sources && "up" in after.sources[SourceKey(a.labels)].stamps
      && after.sources[SourceKey(a.labels)].stamps["up"] == b.value
  {
    hide Selected, RowTuple, SourceTuple, SafeLabels, SourceKey, RowKey;
    KeysIdentify(a.labels, b.labels, true, "", "");
    PlaceKeysIdentify(a, b, true);
    assert [a, b][..1] == [a] && [a][..0] == [];
    assert AddStamps(j, [], f, true) == Some((j, {}));
    assert AddStamps(j, [a], f, true) == AddStamp(j, {}, a, f, true);
  }

  // ---------- Whether a source is up ----------

  /** This value sample says that the source with key k is up, or that it is down. */
  predicate UpSays(s: Sample, f: Filters, k: string, up: bool) {
    UpOf(s, f, k) && s.value == Some(if up then 1.0 else 0.0)
  }

  predicate IsKnown(j: Joined, k: string, up: bool) {
    k in j.sources && j.sources[k].up == Some(up)
  }

  predicate UnseenUnknown(j: Joined) {
    forall k | k in j.sources && !j.sources[k].seenUp :: j.sources[k].up.None?
  }

  ghost predicate UpsRead(values: seq<Sample>, f: Filters, j: Joined) {
    forall k: string, up: bool :: IsKnown(j, k, up) <==> exists i :: 0 <= i < |values| && UpSays(values[i], f, k, up)
  }

  lemma {:induction false} ReadStep(j: Joined, s: Sample, f: Filters, gpu: bool)
    requires UnseenUnknown(j) && AddValue(j, s, f, gpu).Some?
    ensures UnseenUnknown(AddValue(j, s, f, gpu).value)
    ensures forall k: string, up: bool ::
      IsKnown(AddValue(j, s, f, gpu).value, k, up) <==> IsKnown(j, k, up) || UpSays(s, f, k, up)
  {
    hide KnownField, Selected, SourceKey, RowKey, StampKeys;
  }

  lemma {:induction false} SaysMore(front: seq<Sample>, s: Sample, f: Filters, k: string, up: bool)
    ensures (exists i :: 0 <= i < |front + [s]| && UpSays((front + [s])[i], f, k, up))
       <==> (exists i :: 0 <= i < |front| && UpSays(front[i], f, k, up)) || UpSays(s, f, k, up)
  {
    hide UpSays;
    var values := front + [s];
    assert values[|front|] == s;
    if i :| 0 <= i < |front| && UpSays(front[i], f, k, up) { assert values[i] == front[i]; }
  }

  lemma {:induction false} UpsAreRead(values: seq<Sample>, f: Filters, gpu: bool)
    requires AddValues(values, f, gpu).Some?
    ensures UpsRead(values, f, AddValues(values, f, gpu).value) && UnseenUnknown(AddValues(values, f, gpu).value)
    decreases |values|
  {
    hide AddValue, UpSays;
    if values != [] {
      var front, s := values[..|values| - 1], values[|values| - 1];
      assert values == front + [s];
      UpsAreRead(front, f, gpu);
      hide IsKnown, UnseenUnknown;
      ReadStep(AddValues(front, f, gpu).value, s, f, gpu);
      forall k: string, up: bool
        ensures (exists i :: 0 <= i < |values| && UpSays(values[i], f, k, up))
           <==> (exists i :: 0 <= i < |front| && UpSays(front[i], f, k, up)) || UpSays(s, f, k, up)
      {
        SaysMore(front, s, f, k, up);
      }
    }
  }

  /** A selected value sample says of the source with these labels that it is up, or down. */
  ghost predicate SaysUp(values: seq<Sample>, f: Filters, l: Labels, up: bool) {
    exists i :: 0 <= i < |values| && SaysUpAt(values[i], f, l, up)
  }

  predicate SaysUpAt(s: Sample, f: Filters, l: Labels, up: bool) {
    && Selected(s.labels, f) && s.field == "up" && SourceTuple(s.labels) == SourceTuple(l)
    && s.value == Some(if up then 1.0 else 0.0)
  }

  /** A source is up or down exactly when its "up" sample is 1 or 0, and otherwise unknown. */
  lemma {:induction false} UpIsRead(
    values: seq<Sample>, stamps: seq<Sample>, f: Filters, gpu: bool, l: Labels, up: bool)
    requires Joins(values, stamps, f, gpu) && AllSafe(values) && SafeLabels(l)
    requires SourceKey(l) in JoinedOf(values, stamps, f, gpu).sources
    ensures JoinedOf(values, stamps, f, gpu).sources[SourceKey(l)].up == Some(up) <==> SaysUp(values, f, l, up)
  {
    hide JoinedOf, AddValues, Selected, SourceKey, SourceTuple, RowTuple, SafeLabels, Held, UnseenUnknown;
    HeldOfSource(values, stamps, f, gpu, l, "up");
    UpsAreRead(values, f, gpu);
    forall i | 0 <= i < |values| ensures UpSays(values[i], f, SourceKey(l), up) <==> SaysUpAt(values[i], f, l, up) {
      KeysIdentify(values[i].labels, l, gpu, "", "");
    }
    assert IsKnown(AddValues(values, f, gpu).value, SourceKey(l), up) <==> SaysUp(values, f, l, up);
  }

  // ---------- Health by samples ----------

  /** Known, positive, at most 120 s old and at most 5 s ahead. */
  predicate InWindow(v: Option<real>, now: real) {
    v.Some? && 0.0 < v.value && now - 120.0 <= v.value <= now + 5.0
  }

  ghost predicate FreshAt(stamps: seq<Sample>, f: Filters, gpu: bool, k: string, x: string, now: real) {
    exists n :: LastSupply(stamps, f, gpu, k, x, n) && InWindow(stamps[n].value, now)
  }

  /** The timestamp sample for a raw field of these labels is in the window. */
  ghost predicate FreshStamp(stamps: seq<Sample>, f: Filters, gpu: bool, l: Labels, raw: string, now: real) {
    exists n :: 0 <= n < |stamps| && StampOf(stamps[n], f, gpu, l, raw) && InWindow(stamps[n].value, now)
  }

  /** The last "up" timestamp sample of the source is in the window. */
  ghost predicate FreshUp(stamps: seq<Sample>, f: Filters, l: Labels, now: real) {
    exists n :: LastUp(stamps, f, l, n) && InWindow(stamps[n].value, now)
  }

  /** This value sample is of the source with these labels, and rests on the raw field. */
  predicate RestsOn(s: Sample, f: Filters, l: Labels, raw: string) {
    Selected(s.labels, f) && SourceTuple(s.labels) == SourceTuple(l) && s.field != "up" && raw in RawFields(s.field)
  }

  ghost predicate ValuesFresh(
    values: seq<Sample>, stamps: seq<Sample>, f: Filters, gpu: bool, l: Labels, picks: Sample -> bool, now: real) {
    forall i, raw | 0 <= i < |values| && RestsOn(values[i], f, l, raw) && picks(values[i]) ::
      FreshStamp(stamps, f, gpu, values[i].labels, raw, now)
  }

  lemma {:induction false} FreshIsUsable(
    stamps: seq<Sample>, f: Filters, gpu: bool, held: Stamps, k: string, x: string, now: real)
    requires Held(stamps, f, gpu, held, k, x)
    ensures FreshAt(stamps, f, gpu, k, x, now) <==> Usable(held, x, now) && held[x].value >= now - STALE_SECONDS
  {
    hide Supplies;
    forall i, n | LastSupply(stamps, f, gpu, k, x, i) && LastSupply(stamps, f, gpu, k, x, n) ensures i == n {
      OneLast(stamps, f, gpu, k, x, i, n);
    }
  }

  lemma {:induction false} OneLast(stamps: seq<Sample>, f: Filters, gpu: bool, k: string, x: string, i: int, n: int)
    requires LastSupply(stamps, f, gpu, k, x, i) && LastSupply(stamps, f, gpu, k, x, n)
    ensures i == n
  {
    hide Supplies;
  }

  lemma {:induction false} FreshByLabels(
    values: seq<Sample>, stamps: seq<Sample>, f: Filters, gpu: bool, l: Labels, raw: string, now: real)
    requires Joins(values, stamps, f, gpu) && AllSafe(stamps) && SafeLabels(l) && raw != "up"
    requires SourceKey(l) in JoinedOf(values, stamps, f, gpu).sources
    ensures FreshAt(stamps, f, gpu, SourceKey(l), StampKey(l, gpu, raw), now)
      <==> FreshStamp(stamps, f, gpu, l, raw, now)
  {
    StampsAreExact(values, stamps, f, gpu, l, raw);
    forall n | 0 <= n < |stamps|
      ensures Supplies(stamps[n], f, gpu, SourceKey(l), StampKey(l, gpu, raw)) <==> StampOf(stamps[n], f, gpu, l, raw)
    {
      SuppliesByLabels(stamps[n], f, gpu, l, raw);
    }
    hide Joins, JoinedOf, Supplies, StampOf, SafeLabels, SourceKey, StampKey, InWindow;
    forall n | 0 <= n < |stamps| && StampOf(stamps[n], f, gpu, l, raw)
      ensures LastSupply(stamps, f, gpu, SourceKey(l), StampKey(l, gpu, raw), n)
    {
    }
  }

  lemma {:induction false} FreshUpByLabels(stamps: seq<Sample>, f: Filters, gpu: bool, l: Labels, now: real)
    requires AllSafe(stamps) && SafeLabels(l)
    ensures FreshAt(stamps, f, gpu, SourceKey(l), "up", now) <==> FreshUp(stamps, f, l, now)
  {
    forall n | 0 <= n < |stamps|
      ensures Supplies(stamps[n], f, gpu, SourceKey(l), "up") <==> UpStampOf(stamps[n], f, l)
    {
      SuppliesByLabels(stamps[n], f, gpu, l, "");
    }
    hide Supplies, UpStampOf, SafeLabels, SourceKey, InWindow;
    forall n ensures LastSupply(stamps, f, gpu, SourceKey(l), "up", n) <==> LastUp(stamps, f, l, n) {
    }
  }

  /** The fields that value samples of a source ask for, or those of them that are picked. */
  ghost predicate FieldsOf(
    values: seq<Sample>, f: Filters, gpu: bool, k: string, picks: Sample -> bool, fields: set<string>) {
    forall x: string :: x in fields <==>
      x == "up" || exists i :: 0 <= i < |values| && Demands(values[i], f, gpu, k, x) && picks(values[i])
  }

  /** All these fields are fresh exactly when the timestamps behind the samples are. */
  lemma {:induction false} FieldsFresh(
    values: seq<Sample>, stamps: seq<Sample>, f: Filters, gpu: bool, l: Labels, picks: Sample -> bool,
    fields: set<string>, now: real)
    requires Joins(values, stamps, f, gpu) && AllSafe(values) && AllSafe(stamps) && SafeLabels(l)
    requires SourceKey(l) in JoinedOf(values, stamps, f, gpu).sources
    requires FieldsOf(values, f, gpu, SourceKey(l), picks, fields)
    ensures (forall x | x in fields :: FreshAt(stamps, f, gpu, SourceKey(l), x, now))
       <==> FreshUp(stamps, f, l, now) && ValuesFresh(values, stamps, f, gpu, l, picks, now)
  {
    hide Joins, JoinedOf, SafeLabels, SourceKey, SourceTuple, RowTuple, Selected, FreshAt, FreshUp, FreshStamp,
      RowKey, RawFields;
    FreshUpByLabels(stamps, f, gpu, l, now);
    forall i, raw | 0 <= i < |values| && RestsOn(values[i], f, l, raw)
      ensures Demands(values[i], f, gpu, SourceKey(l), StampKey(values[i].labels, gpu, raw))
      ensures FreshAt(stamps, f, gpu, SourceKey(l), StampKey(values[i].labels, gpu, raw), now)
         <==> FreshStamp(stamps, f, gpu, values[i].labels, raw, now)
    {
      KeysIdentify(values[i].labels, l, gpu, "", "");
      NoRawUp(values[i].field, raw);
      FreshByLabels(values, stamps, f, gpu, values[i].labels, raw, now);
    }
    forall i, x | 0 <= i < |values| && Demands(values[i], f, gpu, SourceKey(l), x)
      ensures exists raw :: RestsOn(values[i], f, l, raw) && x == StampKey(values[i].labels, gpu, raw)
    {
      KeysIdentify(values[i].labels, l, gpu, "", "");
      var raw :| raw in RawFields(values[i].field) && x == StampKey(values[i].labels, gpu, raw);
      assert RestsOn(values[i], f, l, raw);
    }
    hide Demands, RestsOn, StampKey;
  }

  lemma {:induction false} NoRawUp(field: string, raw: string)
    requires field != "up" && raw in RawFields(field)
    ensures raw != "up"
  {
  }

  lemma {:induction false} HealthOfFields(
    values: seq<Sample>, stamps: seq<Sample>, f: Filters, gpu: bool, l: Labels, picks: Sample -> bool,
    fields: set<string>, now: real, h: Health)
    requires Joins(values, stamps, f, gpu) && AllSafe(values) && AllSafe(stamps) && SafeLabels(l)
    requires SourceKey(l) in JoinedOf(values, stamps, f, gpu).sources
    requires FieldsOf(values, f, gpu, SourceKey(l), picks, fields)
    requires var source := JoinedOf(values, stamps, f, gpu).sources[SourceKey(l)];
             HealthOf(source.up, source.stamps, fields, now, h)
    ensures h.healthy <==>
      SaysUp(values, f, l, true) && FreshUp(stamps, f, l, now) && ValuesFresh(values, stamps, f, gpu, l, picks, now)
  {
    var k, source := SourceKey(l), JoinedOf(values, stamps, f, gpu).sources[SourceKey(l)];
    assert "up" in fields;
    FieldsFresh(values, stamps, f, gpu, l, picks, fields, now);
    hide Joins, JoinedOf, SafeLabels, SourceKey, FieldsOf, FreshAt, FreshUp, ValuesFresh, HealthOf, Usable;
    UpIsRead(values, stamps, f, gpu, l, true);
    HealthyExactly(source.up, source.stamps, fields, now, h);
    forall x: string
      ensures FreshAt(stamps, f, gpu, k, x, now)
         <==> Usable(source.stamps, x, now) && source.stamps[x].value >= now - STALE_SECONDS
    {
      HeldOfSource(values, stamps, f, gpu, l, x);
      FreshIsUsable(stamps, f, gpu, source.stamps, k, x, now);
    }
  }

  /**
   After a successful assemble a source is healthy exactly when its "up" value sample is 1, its last
   "up" timestamp is in the window, and so is the timestamp of every raw field that its value
   samples rest on.
   */
  lemma {:induction false} HealthFromSamples(
    values: seq<Sample>, stamps: seq<Sample>, f: Filters, gpu: bool, now: real, c: Collected, l: Labels)
    requires Assembles(values, stamps, f, gpu, now, Success(c))
    requires AllSafe(values) && AllSafe(stamps) && SafeLabels(l) && SourceKey(l) in c.health
    ensures c.health[SourceKey(l)].healthy <==>
      SaysUp(values, f, l, true) && FreshUp(stamps, f, l, now) && ValuesFresh(values, stamps, f, gpu, l, _ => true, now)
  {
    assert Joins(values, stamps, f, gpu) && c.joined == JoinedOf(values, stamps, f, gpu);
    hide AddValues, AddStamps, SafeLabels, SourceKey, Joins, JoinedOf, HealthOf, SaysUp, FreshUp, ValuesFresh, Held;
    HeldOfSource(values, stamps, f, gpu, l, "up");
    RequiredFields(values, f, gpu, SourceKey(l));
    var required := c.joined.sources[SourceKey(l)].required;
    assert HealthAt(c.joined, now, SourceKey(l), c.health[SourceKey(l)]);
    HealthOfFields(values, stamps, f, gpu, l, _ => true, required, now, c.health[SourceKey(l)]);
  }

  lemma {:induction false} RequiredFields(values: seq<Sample>, f: Filters, gpu: bool, k: string)
    requires AddValues(values, f, gpu).Some? && k in AddValues(values, f, gpu).value.sources
    ensures FieldsOf(values, f, gpu, k, _ => true, AddValues(values, f, gpu).value.sources[k].required)
  {
    hide AddValues, Demands;
    SourceRequirements(values, f, gpu);
    var required := AddValues(values, f, gpu).value.sources[k].required;
    assert forall x: string :: x in required <==> x == "up" || Demanded(values, f, gpu, k, x);
  }

  /** The same for a row's view of a source: only the values of its own tuple of labels matter. */
  lemma {:induction false} RowHealthFromSamples(
    values: seq<Sample>, stamps: seq<Sample>, f: Filters, gpu: bool, now: real, c: Collected,
    row: Labels, l: Labels, h: Health)
    requires Assembles(values, stamps, f, gpu, now, Success(c))
    requires AllSafe(values) && AllSafe(stamps) && SafeLabels(row) && SafeLabels(l)
    requires SourceKey(l) in c.joined.sources
    requires var source := c.joined.sources[SourceKey(l)];
             HealthOf(source.up, source.stamps, RowView(source.required, row, gpu), now, h)
    ensures h.healthy <==>
      && SaysUp(values, f, l, true) && FreshUp(stamps, f, l, now)
      && ValuesFresh(values, stamps, f, gpu, l, OfRow(row, gpu), now)
  {
    assert Joins(values, stamps, f, gpu) && c.joined == JoinedOf(values, stamps, f, gpu);
    hide AddValues, AddStamps, SafeLabels, SourceKey, Joins, JoinedOf, HealthOf, SaysUp, FreshUp, ValuesFresh, Held,
      RowView;
    HeldOfSource(values, stamps, f, gpu, l, "up");
    RowFields(values, f, gpu, row, SourceKey(l));
    var required := c.joined.sources[SourceKey(l)].required;
    HealthOfFields(values, stamps, f, gpu, l, OfRow(row, gpu), RowView(required, row, gpu), now, h);
  }

  function OfRow(row: Labels, gpu: bool): Sample -> bool {
    (s: Sample) => RowTuple(s.labels, gpu) == RowTuple(row, gpu)
  }

  lemma {:induction false} RowFields(values: seq<Sample>, f: Filters, gpu: bool, row: Labels, k: string)
    requires AddValues(values, f, gpu).Some? && k in AddValues(values, f, gpu).value.sources
    requires AllSafe(values) && SafeLabels(row)
    ensures FieldsOf(values, f, gpu, k, OfRow(row, gpu),
      RowView(AddValues(values, f, gpu).value.sources[k].required, row, gpu))
  {
    hide AddValues, Demands, RowView, RowTuple, SafeLabels;
    forall x: string
      ensures x in RowView(AddValues(values, f, gpu).value.sources[k].required, row, gpu) <==>
        x == "up" || exists i :: 0 <= i < |values| && Demands(values[i], f, gpu, k, x) && OfRow(row, gpu)(values[i])
    {
      RowSeesItsOwnStamps(values, f, gpu, row, k, x);
    }
  }
}
