/** The cadence analysis: records are grouped by (customer, product); each
    group's distinct delivery days give its count, last delivery, mean gap,
    frequency band, forecast and, from three deliveries on, a modal
    weekday. */
module Analysis {
  import opened Wrappers
  import opened Dates
  import opened Normalize
  import opened Ordering
  import opened Numbers

  type Key = (string, string)

  function KeyOf(r: Record): Key
  {
    (r.customer, r.product)
  }

  function KeysOf(records: seq<Record>): (ks: seq<Key>)
    ensures |ks| == |records|
    ensures forall i :: 0 <= i < |records| ==> ks[i] == KeyOf(records[i])
  {
    seq(|records|, i requires 0 <= i < |records| => KeyOf(records[i]))
  }

  /** The group keys in the order `groupby` visits them. */
  function Keys(records: seq<Record>): seq<Key>
  {
    SortedDistinct(KeysOf(records), KeyLess)
  }

  /** The keys ascend without repeats and are exactly the records' keys. */
  lemma KeysSpec(records: seq<Record>)
    ensures StrictlySorted(Keys(records), KeyLess)
    ensures forall k :: k in Keys(records) <==> HasKey(records, k)
  {
    KeyLessOrder();
    SortedDistinctSpec(KeysOf(records), KeyLess);
    forall k ensures k in KeysOf(records) <==> HasKey(records, k) {
      if k in KeysOf(records) {
        var i :| 0 <= i < |records| && KeysOf(records)[i] == k;
      }
    }
  }

  /** Every key is the key of some record. */
  lemma KeysHaveRecords(records: seq<Record>)
    ensures forall j :: 0 <= j < |Keys(records)| ==> HasKey(records, Keys(records)[j])
  {
    KeysSpec(records);
    forall j | 0 <= j < |Keys(records)| ensures HasKey(records, Keys(records)[j]) {
      assert Keys(records)[j] in Keys(records);
    }
  }

  /** Some record has key `key`. */
  predicate HasKey(records: seq<Record>, key: Key)
  {
    exists i :: 0 <= i < |records| && KeyOf(records[i]) == key
  }

  /** The records of one group, in record order. */
  function Group(records: seq<Record>, key: Key): (g: seq<Record>)
    ensures |g| <= |records|
  {
    if |records| == 0 then []
    else
      var init := Group(records[..|records| - 1], key);
      if KeyOf(records[|records| - 1]) == key then init + [records[|records| - 1]] else init
  }

  lemma {:induction false} GroupMembers(records: seq<Record>, key: Key)
    ensures forall r :: r in Group(records, key) <==> r in records && KeyOf(r) == key
    decreases |records|
  {
    if |records| > 0 {
      var init := records[..|records| - 1];
      GroupMembers(init, key);
      assert records == init + [records[|records| - 1]];
    }
  }

  function DatesOf(rs: seq<Record>): (ds: seq<int>)
    ensures |ds| == |rs|
    ensures forall i :: 0 <= i < |rs| ==> ds[i] == rs[i].date
  {
    seq(|rs|, i requires 0 <= i < |rs| => rs[i].date)
  }

  /** `sorted(group['Date'].unique())` */
  function GroupDates(records: seq<Record>, key: Key): seq<int>
  {
    SortedDistinct(DatesOf(Group(records, key)), IntLess)
  }

  /** The group's dates are ascending without repeats, and are exactly the
      dates of the group's records. */
  lemma GroupDatesSpec(records: seq<Record>, key: Key)
    ensures StrictlySorted(GroupDates(records, key), IntLess)
    ensures forall d :: d in GroupDates(records, key) <==>
              exists r :: r in records && KeyOf(r) == key && r.date == d
  {
    IntLessOrder();
    var g := Group(records, key);
    SortedDistinctSpec(DatesOf(g), IntLess);
    GroupMembers(records, key);
    forall d ensures d in DatesOf(g) <==> exists r :: r in g && r.date == d {
      if d in DatesOf(g) {
        var i :| 0 <= i < |g| && DatesOf(g)[i] == d;
        assert g[i] in g;
      }
      if exists r :: r in g && r.date == d {
        var r :| r in g && r.date == d;
        var i :| 0 <= i < |g| && g[i] == r;
        assert DatesOf(g)[i] == d;
      }
    }
  }

  /** A group with a record has a date. */
  lemma GroupDatesNonEmpty(records: seq<Record>, key: Key)
    requires HasKey(records, key)
    ensures |GroupDates(records, key)| > 0
  {
    GroupDatesSpec(records, key);
    var i :| 0 <= i < |records| && KeyOf(records[i]) == key;
    assert records[i] in records;
    assert records[i].date in GroupDates(records, key);
  }

  function SumGallons(rs: seq<Record>): real
  {
    if |rs| == 0 then 0.0 else SumGallons(rs[..|rs| - 1]) + rs[|rs| - 1].gallons
  }

  function Sum(xs: seq<int>): int
  {
    if |xs| == 0 then 0 else Sum(xs[..|xs| - 1]) + xs[|xs| - 1]
  }

  /** `np.diff`: the gap between each date and the next. */
  function Gaps(ds: seq<int>): (gs: seq<int>)
    ensures |gs| == if |ds| == 0 then 0 else |ds| - 1
  {
    if |ds| < 2 then []
    else Gaps(ds[..|ds| - 1]) + [ds[|ds| - 1] - ds[|ds| - 2]]
  }

  /** `np.mean(intervals)` */
  function MeanGap(ds: seq<int>): real
    requires |ds| >= 2
  {
    Sum(Gaps(ds)) as real / (|ds| - 1) as real
  }

  /** Python's `int()` of a float: truncation toward zero. */
  function Trunc(x: real): (n: int)
    ensures x >= 0.0 ==> n as real <= x < n as real + 1.0
    ensures x < 0.0 ==> n as real - 1.0 < x <= n as real
  {
    if x >= 0.0 then x.Floor else -((-x).Floor)
  }

  datatype Frequency = OneOff | Weekly | BiWeekly | Monthly | Custom(days: int)

  /** The bands, tried in order, inclusive at both ends. */
  function Classify(avg: real): Frequency
  {
    if 5.0 <= avg <= 9.0 then Weekly
    else if 12.0 <= avg <= 16.0 then BiWeekly
    else if 25.0 <= avg <= 35.0 then Monthly
    else Custom(Trunc(avg))
  }

  /** The label the report shows. */
  function FrequencyLabel(f: Frequency): string
  {
    match f
    case OneOff => "Irregular/One-off"
    case Weekly => "Weekly"
    case BiWeekly => "Bi-Weekly"
    case Monthly => "Monthly"
    case Custom(d) => "Custom (" + IntText(d) + " days)"
  }

  /** `str(n)` of an integer. */
  function IntText(n: int): string
  {
    if n < 0 then "-" + NatText(-n) else NatText(n)
  }

  /** The custom label carries the truncated mean, written so that it
      reads back as that number. */
  lemma CustomLabel(d: nat)
    ensures var text := FrequencyLabel(Custom(d));
            |text| > 14 && text[..8] == "Custom (" && text[|text| - 6..] == " days)"
            && DigitsValue(text[8..|text| - 6]) == d
  {
    var text := FrequencyLabel(Custom(d));
    assert text[8..|text| - 6] == NatText(d);
    NatTextRoundTrip(d);
  }

  /** One row of the report. Dates are day numbers; `None` is `N/A`. */
  datatype Summary = Summary(
    customer: string, product: string, frequency: Frequency, avgDays: real,
    patternDay: Option<Weekday>, lastDelivery: int, forecast: Option<int>,
    totalDeliveries: nat, totalGallons: real)

  /** The statistics of one group from its ascending distinct dates, its
      total, and the modal weekday chosen for it. */
  function SummaryOf(key: Key, ds: seq<int>, gallons: real, day: Option<Weekday>): (s: Summary)
    requires |ds| > 0
    ensures s.customer == key.0 && s.product == key.1 && s.totalGallons == gallons
  {
    var n := |ds|;
    var last := ds[n - 1];
    if n > 1 then
      var avg := MeanGap(ds);
      Summary(key.0, key.1, Classify(avg), avg, if n >= 3 then day else None,
              last, Some(last + Trunc(avg)), n, gallons)
    else
      Summary(key.0, key.1, OneOff, 0.0, None, last, None, 1, gallons)
  }

  function SummaryFor(records: seq<Record>, key: Key, day: Option<Weekday>): (s: Summary)
    requires HasKey(records, key)
  {
    GroupDatesNonEmpty(records, key);
    SummaryOf(key, GroupDates(records, key), SumGallons(Group(records, key)), day)
  }

  /** The key, total and pattern day of a group's summary. */
  lemma SummaryForFields(records: seq<Record>, key: Key, day: Option<Weekday>)
    requires HasKey(records, key)
    ensures var s := SummaryFor(records, key, day);
            (s.customer, s.product) == key && s.totalGallons == SumGallons(Group(records, key))
            && s.patternDay == if |GroupDates(records, key)| >= 3 then day else None
  {
  }

  /** Number of the dates falling on weekday `w`: `days_of_week.count(w)`. */
  function WeekdayCount(ds: seq<int>, w: Weekday): (c: nat)
    ensures c <= |ds|
  {
    if |ds| == 0 then 0
    else WeekdayCount(ds[..|ds| - 1], w) + (if WeekdayOf(ds[|ds| - 1]) == w then 1 else 0)
  }

  /** `w` is a weekday of the dates that no other weekday outnumbers. */
  predicate Modal(ds: seq<int>, w: Weekday)
  {
    WeekdayCount(ds, w) >= 1 && forall v :: WeekdayCount(ds, v) <= WeekdayCount(ds, w)
  }

  /** The pattern day is present exactly from three dates on, and modal. */
  predicate PatternDayOk(ds: seq<int>, day: Option<Weekday>)
  {
    if |ds| >= 3 then day.Some? && Modal(ds, day.value) else day.None?
  }

  /** A weekday that is counted is the weekday of one of the dates. */
  lemma {:induction false} WeekdayCountWitness(ds: seq<int>, w: Weekday)
    requires WeekdayCount(ds, w) > 0
    ensures exists k :: 0 <= k < |ds| && WeekdayOf(ds[k]) == w
    decreases |ds|
  {
    var init := ds[..|ds| - 1];
    if WeekdayOf(ds[|ds| - 1]) != w {
      WeekdayCountWitness(init, w);
      var k :| 0 <= k < |init| && WeekdayOf(init[k]) == w;
      assert ds[k] == init[k];
    }
  }

  /** The weekday of any date is counted at least once. */
  lemma {:induction false} WeekdayCountPositive(ds: seq<int>, k: nat)
    requires k < |ds|
    ensures WeekdayCount(ds, WeekdayOf(ds[k])) >= 1
    decreases |ds|
  {
    if k < |ds| - 1 {
      var init := ds[..|ds| - 1];
      assert init[k] == ds[k];
      WeekdayCountPositive(init, k);
    }
  }

  /** `max(set(days_of_week), key=days_of_week.count)`: the dates are
      visited in order and a weekday replaces the best so far only when it
      is counted strictly more often. */
  method PickModalWeekday(ds: seq<int>) returns (w: Weekday)
    requires |ds| > 0
    ensures Modal(ds, w)
  {
    w := WeekdayOf(ds[0]);
    WeekdayCountPositive(ds, 0);
    var best := WeekdayCount(ds, w);
    for i := 1 to |ds|
      invariant best == WeekdayCount(ds, w) >= 1
      invariant forall k :: 0 <= k < i ==> WeekdayCount(ds, WeekdayOf(ds[k])) <= best
    {
      var c := WeekdayCount(ds, WeekdayOf(ds[i]));
      if c > best {
        w := WeekdayOf(ds[i]);
        best := c;
      }
    }
    forall v ensures WeekdayCount(ds, v) <= best {
      if WeekdayCount(ds, v) > 0 {
        WeekdayCountWitness(ds, v);
      }
    }
  }

  function SummaryKeys(ss: seq<Summary>): (ks: seq<Key>)
    ensures |ks| == |ss|
    ensures forall i :: 0 <= i < |ss| ==> ks[i] == (ss[i].customer, ss[i].product)
  {
    seq(|ss|, i requires 0 <= i < |ss| => (ss[i].customer, ss[i].product))
  }

  function SumTotals(ss: seq<Summary>): real
  {
    if |ss| == 0 then 0.0 else SumTotals(ss[..|ss| - 1]) + ss[|ss| - 1].totalGallons
  }

  /** The body of the group loop for one key. */
  method SummarizeGroup(records: seq<Record>, key: Key) returns (s: Summary)
    requires HasKey(records, key)
    ensures s == SummaryFor(records, key, s.patternDay)
    ensures PatternDayOk(GroupDates(records, key), s.patternDay)
  {
    var ds := GroupDates(records, key);
    GroupDatesNonEmpty(records, key);
    var day: Option<Weekday> := None;
    if |ds| >= 3 {
      var w := PickModalWeekday(ds);
      day := Some(w);
    }
    s := SummaryFor(records, key, day);
  }

  /** `ss` holds, key by key, the summary of each group of `keys` for a
      weekday valid for that group: what the group loop has built after
      the keys of `keys`. */
  predicate Reported(records: seq<Record>, keys: seq<Key>, ss: seq<Summary>)
    decreases |keys|
  {
    |ss| == |keys|
    && (|keys| == 0
        || (Reported(records, keys[..|keys| - 1], ss[..|ss| - 1])
            && HasKey(records, keys[|keys| - 1])
            && ss[|ss| - 1] == SummaryFor(records, keys[|keys| - 1], ss[|ss| - 1].patternDay)
            && PatternDayOk(GroupDates(records, keys[|keys| - 1]), ss[|ss| - 1].patternDay)))
  }

  /** One step of the group loop. */
  lemma ReportedStep(records: seq<Record>, keys: seq<Key>, ss: seq<Summary>, s: Summary)
    requires |ss| < |keys| && Reported(records, keys[..|ss|], ss) && HasKey(records, keys[|ss|])
    requires s == SummaryFor(records, keys[|ss|], s.patternDay)
    requires PatternDayOk(GroupDates(records, keys[|ss|]), s.patternDay)
    ensures Reported(records, keys[..|ss| + 1], ss + [s])
  {
    var i := |ss|;
    assert keys[..i + 1][..i] == keys[..i] && (ss + [s])[..i] == ss;
  }

  /** Element `j` of what the group loop builds is the summary of the
      group of `keys[j]`, for a weekday valid for that group. */
  lemma {:induction false} ReportedAt(records: seq<Record>, keys: seq<Key>, ss: seq<Summary>, j: nat)
    requires Reported(records, keys, ss) && j < |keys|
    ensures |ss| == |keys| && HasKey(records, keys[j])
    ensures ss[j] == SummaryFor(records, keys[j], ss[j].patternDay)
    ensures PatternDayOk(GroupDates(records, keys[j]), ss[j].patternDay)
    decreases |keys|
  {
    if j < |keys| - 1 {
      ReportedAt(records, keys[..|keys| - 1], ss[..|ss| - 1], j);
      assert keys[..|keys| - 1][j] == keys[j] && ss[..|ss| - 1][j] == ss[j];
    }
  }

  /** `analyze_patterns`: one summary per group, in key order, each for a
      weekday valid for its group (see `ReportSpec`). */
  method AnalyzePatterns(records: seq<Record>) returns (summaries: seq<Summary>)
    ensures Reported(records, Keys(records), summaries)
  {
    var keys := Keys(records);
    KeysHaveRecords(records);
    summaries := [];
    for i := 0 to |keys|
      invariant |summaries| == i
      invariant Reported(records, keys[..i], summaries)
    {
      var s := SummarizeGroup(records, keys[i]);
      ReportedStep(records, keys, summaries, s);
      summaries := summaries + [s];
    }
    assert keys[..|keys|] == keys;
  }

  /** The report has one summary per distinct (customer, product) pair, in
      ascending key order; each is its group's summary for the chosen
      weekday; none for no records; and no gallons are lost or counted
      twice. */
  lemma ReportSpec(records: seq<Record>, ss: seq<Summary>)
    requires Reported(records, Keys(records), ss)
    ensures StrictlySorted(SummaryKeys(ss), KeyLess)
    ensures forall k :: k in SummaryKeys(ss) <==> HasKey(records, k)
    ensures forall j :: 0 <= j < |ss| ==>
              HasKey(records, SummaryKeys(ss)[j])
              && ss[j] == SummaryFor(records, SummaryKeys(ss)[j], ss[j].patternDay)
              && PatternDayOk(GroupDates(records, SummaryKeys(ss)[j]), ss[j].patternDay)
    ensures |records| == 0 ==> ss == []
    ensures SumTotals(ss) == SumGallons(records)
  {
    KeysSpec(records);
    var keys := Keys(records);
    forall j | 0 <= j < |ss|
      ensures HasKey(records, keys[j])
      ensures ss[j] == SummaryFor(records, keys[j], ss[j].patternDay)
      ensures PatternDayOk(GroupDates(records, keys[j]), ss[j].patternDay)
      ensures (ss[j].customer, ss[j].product) == keys[j]
      ensures ss[j].totalGallons == SumGallons(Group(records, keys[j]))
    {
      ReportedAt(records, keys, ss, j);
      SummaryForFields(records, keys[j], ss[j].patternDay);
    }
    assert SummaryKeys(ss) == keys;
    GallonsConserved(records, ss, keys);
  }

  /** The total over the summaries is the total over the groups of `keys`. */
  lemma {:induction false} SumTotalsOfGroups(records: seq<Record>, ss: seq<Summary>, keys: seq<Key>)
    requires |ss| == |keys|
    requires forall j :: 0 <= j < |ss| ==> ss[j].totalGallons == SumGallons(Group(records, keys[j]))
    ensures SumTotals(ss) == SumOverKeys(records, keys)
    decreases |ss|
  {
    if |ss| > 0 {
      SumTotalsOfGroups(records, ss[..|ss| - 1], keys[..|keys| - 1]);
    }
  }

  /** The gallons of the groups of `keys`, added up. */
  function SumOverKeys(records: seq<Record>, keys: seq<Key>): real
  {
    if |keys| == 0 then 0.0
    else SumOverKeys(records, keys[..|keys| - 1]) + SumGallons(Group(records, keys[|keys| - 1]))
  }

  predicate Distinct<T(==)>(xs: seq<T>)
  {
    forall i, j :: 0 <= i < j < |xs| ==> xs[i] != xs[j]
  }

  /** Over distinct keys, the gallons `g` of a record with key `key` are
      counted once if `key` is among them, else not at all. */
  function Hits(keys: seq<Key>, key: Key, g: real): real
  {
    if |keys| == 0 then 0.0
    else Hits(keys[..|keys| - 1], key, g) + (if keys[|keys| - 1] == key then g else 0.0)
  }

  lemma {:induction false} HitsOnce(keys: seq<Key>, key: Key, g: real)
    requires Distinct(keys)
    ensures Hits(keys, key, g) == if key in keys then g else 0.0
    decreases |keys|
  {
    if |keys| > 0 {
      var init := keys[..|keys| - 1];
      HitsOnce(init, key, g);
      assert keys == init + [keys[|keys| - 1]];
      if keys[|keys| - 1] == key {
        assert key !in init;
      }
    }
  }

  /** Adding one record to the end adds its gallons to its own group. */
  lemma {:induction false} SumOverKeysSnoc(records: seq<Record>, keys: seq<Key>)
    requires |records| > 0
    ensures var init := records[..|records| - 1];
            var r := records[|records| - 1];
            SumOverKeys(records, keys) == SumOverKeys(init, keys) + Hits(keys, KeyOf(r), r.gallons)
    decreases |keys|
  {
    if |keys| > 0 {
      SumOverKeysSnoc(records, keys[..|keys| - 1]);
    }
  }

  /** Grouping by distinct keys that cover every record loses no gallons
      and counts none twice. */
  lemma {:induction false} GroupsPartitionGallons(records: seq<Record>, keys: seq<Key>)
    requires Distinct(keys)
    requires forall i :: 0 <= i < |records| ==> KeyOf(records[i]) in keys
    ensures SumOverKeys(records, keys) == SumGallons(records)
    decreases |records|
  {
    if |records| == 0 {
      ZeroOverKeys(records, keys);
    } else {
      var init := records[..|records| - 1];
      var r := records[|records| - 1];
      assert forall i :: 0 <= i < |init| ==> init[i] == records[i];
      GroupsPartitionGallons(init, keys);
      SumOverKeysSnoc(records, keys);
      HitsOnce(keys, KeyOf(r), r.gallons);
    }
  }

  lemma {:induction false} ZeroOverKeys(records: seq<Record>, keys: seq<Key>)
    requires |records| == 0
    ensures SumOverKeys(records, keys) == 0.0
    decreases |keys|
  {
    if |keys| > 0 {
      ZeroOverKeys(records, keys[..|keys| - 1]);
    }
  }

  lemma GallonsConserved(records: seq<Record>, ss: seq<Summary>, keys: seq<Key>)
    requires StrictlySorted(keys, KeyLess)
    requires forall k :: k in keys <==> HasKey(records, k)
    requires |ss| == |keys|
    requires forall j :: 0 <= j < |ss| ==> ss[j].totalGallons == SumGallons(Group(records, keys[j]))
    ensures SumTotals(ss) == SumGallons(records)
  {
    KeyLessOrder();
    forall i, j | 0 <= i < j < |keys| ensures keys[i] != keys[j] {
      SortedDistinctElements(keys, KeyLess, i, j);
    }
    forall i | 0 <= i < |records| ensures KeyOf(records[i]) in keys {
      assert HasKey(records, KeyOf(records[i]));
    }
    GroupsPartitionGallons(records, keys);
    SumTotalsOfGroups(records, ss, keys);
  }

  /** The gaps telescope: they add up to the span from first to last. */
  lemma {:induction false} Telescope(ds: seq<int>)
    requires |ds| > 0
    ensures Sum(Gaps(ds)) == ds[|ds| - 1] - ds[0]
    decreases |ds|
  {
    if |ds| > 1 {
      var init := ds[..|ds| - 1];
      Telescope(init);
      assert Gaps(ds)[..|ds| - 2] == Gaps(init);
      assert init[0] == ds[0] && init[|init| - 1] == ds[|ds| - 2];
    }
  }

  /** So the mean gap is the span over one less than the number of dates. */
  lemma MeanGapIsSpan(ds: seq<int>)
    requires |ds| >= 2
    ensures MeanGap(ds) == (ds[|ds| - 1] - ds[0]) as real / (|ds| - 1) as real
  {
    Telescope(ds);
  }

  /** `k <= span / m` and `span / m <= k` over the reals, in integers. */
  lemma QuotientBounds(span: int, m: int, k: int)
    requires m >= 1
    ensures k as real <= span as real / m as real <==> k * m <= span
    ensures span as real / m as real <= k as real <==> span <= k * m
  {
    var x := span as real / m as real;
    assert x * m as real == span as real;
    assert (k * m) as real == k as real * m as real;
    if k as real <= x {
      assert k as real * m as real <= x * m as real;
    }
    if k * m <= span {
      assert k as real * m as real <= x * m as real;
    }
    if x <= k as real {
      assert x * m as real <= k as real * m as real;
    }
    if span <= k * m {
      assert x * m as real <= k as real * m as real;
    }
  }

  /** `int(span / m)` is the integer quotient. */
  lemma TruncQuotient(span: int, m: int)
    requires span >= 0 && m >= 1
    ensures Trunc(span as real / m as real) == span / m
  {
    var q := span / m;
    QuotientBounds(span, m, q);
    QuotientBounds(span, m, q + 1);
    assert q * m <= span < (q + 1) * m;
    var x := span as real / m as real;
    assert x >= 0.0 by {
      QuotientBounds(span, m, 0);
    }
    assert q as real <= x < (q + 1) as real;
  }

  /** The classification of a mean `span / m`, in integer arithmetic: each
      band is a pair of multiples of `m`, and outside the bands the label
      carries the integer quotient. */
  lemma ClassifySpan(span: int, m: int)
    requires span >= 0 && m >= 1
    ensures Classify(span as real / m as real) ==
            if 5 * m <= span <= 9 * m then Weekly
            else if 12 * m <= span <= 16 * m then BiWeekly
            else if 25 * m <= span <= 35 * m then Monthly
            else Custom(span / m)
  {
    QuotientBounds(span, m, 5);
    QuotientBounds(span, m, 9);
    QuotientBounds(span, m, 12);
    QuotientBounds(span, m, 16);
    QuotientBounds(span, m, 25);
    QuotientBounds(span, m, 35);
    TruncQuotient(span, m);
  }

  /** The summary of a group with several dates: its band, mean and
      forecast follow from the span between first and last date alone; a
      single date is a one-off with no mean, forecast or pattern day. */
  lemma SummaryOfSpec(key: Key, ds: seq<int>, gallons: real, day: Option<Weekday>)
    requires |ds| > 0 && StrictlySorted(ds, IntLess)
    ensures var s := SummaryOf(key, ds, gallons, day);
            var n := |ds|;
            var span := ds[n - 1] - ds[0];
            s.customer == key.0 && s.product == key.1
            && s.totalDeliveries == n && s.lastDelivery == ds[n - 1] && s.totalGallons == gallons
            && (n == 1 ==> s.frequency == OneOff && s.avgDays == 0.0 && s.forecast.None?
                           && s.patternDay.None?)
            && (n > 1 ==>
                  s.avgDays == span as real / (n - 1) as real
                  && s.forecast == Some(ds[n - 1] + span / (n - 1))
                  && s.frequency == (if 5 * (n - 1) <= span <= 9 * (n - 1) then Weekly
                                     else if 12 * (n - 1) <= span <= 16 * (n - 1) then BiWeekly
                                     else if 25 * (n - 1) <= span <= 35 * (n - 1) then Monthly
                                     else Custom(span / (n - 1)))
                  && s.patternDay == (if n >= 3 then day else None))
  {
    var n := |ds|;
    if n > 1 {
      MeanGapIsSpan(ds);
      assert IntLess(ds[0], ds[n - 1]);
      ClassifySpan(ds[n - 1] - ds[0], n - 1);
      TruncQuotient(ds[n - 1] - ds[0], n - 1);
    }
  }

  /** With two deliveries the forecast repeats the one gap. */
  lemma TwoDeliveries(key: Key, ds: seq<int>, gallons: real, day: Option<Weekday>)
    requires |ds| == 2 && ds[0] < ds[1]
    ensures SummaryOf(key, ds, gallons, day).forecast == Some(2 * ds[1] - ds[0])
    ensures SummaryOf(key, ds, gallons, day).patternDay.None?
  {
    SummaryOfSpec(key, ds, gallons, day);
  }

  /** A group's summary: the number of distinct delivery days, the latest
      of them, and the gallons of all its records, same-day repeats
      included. */
  lemma SummaryForSpec(records: seq<Record>, key: Key, day: Option<Weekday>)
    requires HasKey(records, key)
    ensures var s := SummaryFor(records, key, day);
            var ds := GroupDates(records, key);
            s.totalDeliveries == |ds| && Distinct(ds)
            && (forall d :: d in ds <==> exists r :: r in records && KeyOf(r) == key && r.date == d)
            && (exists r :: r in records && KeyOf(r) == key && r.date == s.lastDelivery)
            && (forall r :: r in records && KeyOf(r) == key ==> r.date <= s.lastDelivery)
            && s.totalGallons == SumGallons(Group(records, key))
            && (forall r :: r in Group(records, key) <==> r in records && KeyOf(r) == key)
  {
    GroupDatesSpec(records, key);
    GroupDatesLast(records, key);
    GroupMembers(records, key);
    SummaryForCount(records, key, day);
  }

  /** The count and last delivery of a group's summary are its number of
      dates and its latest date. */
  lemma SummaryForCount(records: seq<Record>, key: Key, day: Option<Weekday>)
    requires HasKey(records, key)
    ensures var s := SummaryFor(records, key, day);
            var ds := GroupDates(records, key);
            |ds| > 0 && s.totalDeliveries == |ds| && s.lastDelivery == ds[|ds| - 1]
            && s.totalGallons == SumGallons(Group(records, key))
  {
    GroupDatesNonEmpty(records, key);
  }

  /** A group's dates are distinct, and the last of them is the latest date
      of any of its records. */
  lemma GroupDatesLast(records: seq<Record>, key: Key)
    requires HasKey(records, key)
    ensures var ds := GroupDates(records, key);
            |ds| > 0 && Distinct(ds)
            && (exists r :: r in records && KeyOf(r) == key && r.date == ds[|ds| - 1])
            && (forall r :: r in records && KeyOf(r) == key ==> r.date <= ds[|ds| - 1])
  {
    IntLessOrder();
    GroupDatesSpec(records, key);
    GroupDatesNonEmpty(records, key);
    var ds := GroupDates(records, key);
    forall i, j | 0 <= i < j < |ds| ensures ds[i] != ds[j] {
      SortedDistinctElements(ds, IntLess, i, j);
    }
    assert ds[|ds| - 1] in ds;
    forall r | r in records && KeyOf(r) == key ensures r.date <= ds[|ds| - 1] {
      assert r.date in ds;
      var i :| 0 <= i < |ds| && ds[i] == r.date;
      if i < |ds| - 1 {
        assert IntLess(ds[i], ds[|ds| - 1]);
      }
    }
  }

  /** Every record of a group carries gallons, so every summary's total
      is positive. */
  lemma {:induction false} GroupGallonsPositive(records: seq<Record>, key: Key)
    requires forall i :: 0 <= i < |records| ==> records[i].gallons > 0.0
    ensures SumGallons(Group(records, key)) >= 0.0
    ensures HasKey(records, key) ==> SumGallons(Group(records, key)) > 0.0
    decreases |records|
  {
    if |records| > 0 {
      var init := records[..|records| - 1];
      GroupGallonsPositive(init, key);
      if HasKey(records, key) && KeyOf(records[|records| - 1]) != key {
        var i :| 0 <= i < |records| && KeyOf(records[i]) == key;
        assert init[i] == records[i];
      }
    }
  }

  /** The bands at and just past their edges. */
  lemma ClassifyBoundaries()
    ensures Classify(4.9) == Custom(4)
    ensures Classify(5.0) == Weekly && Classify(9.0) == Weekly
    ensures Classify(10.0) == Custom(10) && Classify(11.9) == Custom(11)
    ensures Classify(12.0) == BiWeekly && Classify(16.0) == BiWeekly
    ensures Classify(16.5) == Custom(16) && Classify(24.9) == Custom(24)
    ensures Classify(25.0) == Monthly && Classify(35.0) == Monthly
    ensures Classify(35.1) == Custom(35)
  {
  }

  /** The weekdays of the first, eighth and fifteenth day of 2025. */
  lemma ScenarioWeekdays(ds: seq<int>)
    requires ds == [0, 7, 14]
    ensures WeekdayCount(ds, Wednesday) == 3
    ensures forall v :: v != Wednesday ==> WeekdayCount(ds, v) == 0
  {
    assert WeekdayOf(0) == Wednesday && WeekdayOf(7) == Wednesday && WeekdayOf(14) == Wednesday;
    assert ds[..2] == [0, 7] && ds[..2][..1] == [0] && ds[..2][..1][..0] == [];
    assert WeekdayCount([0], Wednesday) == 1;
    assert WeekdayCount([0, 7], Wednesday) == 2;
    forall v | v != Wednesday ensures WeekdayCount(ds, v) == 0 {
      assert WeekdayCount([0], v) == 0;
      assert WeekdayCount([0, 7], v) == 0;
    }
  }

  lemma ScenarioSummary(ds: seq<int>)
    requires ds == [0, 7, 14]
    ensures Modal(ds, Wednesday)
    ensures SummaryOf(("ACME", "UR"), ds, 900.0, Some(Wednesday)) ==
            Summary("ACME", "UR", Weekly, 7.0, Some(Wednesday), 14, Some(21), 3, 900.0)
  {
    ScenarioWeekdays(ds);
    IntLessOrder();
    assert StrictlySorted(ds, IntLess);
    SummaryOfSpec(("ACME", "UR"), ds, 900.0, Some(Wednesday));
    assert ds[2] - ds[0] == 14 && 14 / 2 == 7;
  }

  /** Deliveries to ACME of UR on 1, 8 and 15 January 2025 (three
      Wednesdays): weekly, mean 7, pattern day Wednesday, last delivery
      day 14, forecast day 21 (22 January). */
  lemma WeeklyScenario()
    ensures Modal([0, 7, 14], Wednesday)
    ensures forall v :: Modal([0, 7, 14], v) ==> v == Wednesday
    ensures forall day :: PatternDayOk([0, 7, 14], day) ==> day == Some(Wednesday)
    ensures SummaryOf(("ACME", "UR"), [0, 7, 14], 900.0, Some(Wednesday)) ==
            Summary("ACME", "UR", Weekly, 7.0, Some(Wednesday), 14, Some(21), 3, 900.0)
  {
    ScenarioSummary([0, 7, 14]);
    ScenarioWeekdays([0, 7, 14]);
  }

  /** A single delivery is a one-off with no pattern day and no forecast. */
  lemma SingleDelivery(key: Key, d: int, gallons: real, day: Option<Weekday>)
    ensures SummaryOf(key, [d], gallons, day) ==
            Summary(key.0, key.1, OneOff, 0.0, None, d, None, 1, gallons)
  {
  }
}
