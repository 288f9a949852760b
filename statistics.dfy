/** The aggregations of the statistics screen: counters built by `reduce`
    over the agreements, the chart data derived from them, the colour
    mappings, the top partners and the per-year counts. */
module Statistics {
  import opened Seqs
  import opened Text
  import opened Types

  /** The agreement fields the screen counts by. */
  datatype Field = TypeField | StatusField | DomainField

  /** The key an agreement is counted under (`agreement.type`, `.status`, `.domain`). */
  function KeyOf(a: Agreement, field: Field): string {
    match field
    case TypeField => TypeLabel(a.kind)
    case StatusField => StatusLabel(a.status)
    case DomainField => a.domain
  }

  /** The key of every agreement, in order. */
  function Keys(agreements: seq<Agreement>, field: Field): seq<string> {
    seq(|agreements|, i requires 0 <= i < |agreements| => KeyOf(agreements[i], field))
  }

  /** Selects the agreements counted under key `k`. */
  function HasKey(field: Field, k: string): Agreement -> bool {
    (a: Agreement) => KeyOf(a, field) == k
  }

  /** A plain JavaScript object used as a counter: its own keys in insertion
      order and the value stored under each. */
  datatype Tally = Tally(keys: seq<string>, counts: map<string, nat>)
  {
    /** `acc[k] || 0`. */
    function Get(k: string): nat {
      if k in counts then counts[k] else 0
    }

    /** `Object.values(acc)`, in key order. */
    function Values(): seq<nat> {
      seq(|keys|, i requires 0 <= i < |keys| => Get(keys[i]))
    }
  }

  /** The sum of the values stored under `keys`. */
  function Total(keys: seq<string>, t: Tally): nat {
    if keys == [] then 0 else Total(keys[..|keys| - 1], t) + t.Get(keys[|keys| - 1])
  }

  /** `keys` lists members of `ks` in the order of their first occurrence in `ks`. */
  ghost predicate FirstOccurrenceOrder(keys: seq<string>, ks: seq<string>) {
    (forall i :: 0 <= i < |keys| ==> keys[i] in ks) &&
    forall i, j :: 0 <= i < j < |keys| ==> FirstIndex(ks, keys[i]) < FirstIndex(ks, keys[j])
  }

  /** A counter's total depends only on the values under the keys summed. */
  lemma {:induction false} TotalSame(keys: seq<string>, t: Tally, u: Tally)
    requires forall i :: 0 <= i < |keys| ==> t.Get(keys[i]) == u.Get(keys[i])
    ensures Total(keys, t) == Total(keys, u)
    decreases |keys|
  {
    if keys != [] {
      TotalSame(keys[..|keys| - 1], t, u);
    }
  }

  /** Incrementing the value under one of the (distinct) keys summed
      increments the total by one. */
  lemma {:induction false} TotalBump(keys: seq<string>, t: Tally, u: Tally, k: string)
    requires NoDup(keys) && k in keys
    requires u.Get(k) == t.Get(k) + 1
    requires forall x :: x != k ==> u.Get(x) == t.Get(x)
    ensures Total(keys, u) == Total(keys, t) + 1
    decreases |keys|
  {
    var n := |keys| - 1;
    var front := keys[..n];
    assert NoDup(front) by {
      forall i, j | 0 <= i < j < |front| ensures front[i] != front[j] {
        assert front[i] == keys[i] && front[j] == keys[j];
      }
    }
    if keys[n] == k {
      assert k !in front by {
        forall i | 0 <= i < |front| ensures front[i] != k {
          assert front[i] == keys[i];
        }
      }
      TotalSame(front, t, u);
    } else {
      assert k in front by {
        var i :| 0 <= i < |keys| && keys[i] == k;
        assert front[i] == k;
      }
      TotalBump(front, t, u, k);
    }
  }

  /** `t` is what the count-by-key `reduce` holds after the keys `ks`. */
  ghost predicate Counts(t: Tally, ks: seq<string>) {
    && NoDup(t.keys)
    && (forall k :: k in t.keys <==> k in ks)
    && (forall k :: k in t.counts <==> k in t.keys)
    && (forall k :: t.Get(k) == multiset(ks)[k])
    && FirstOccurrenceOrder(t.keys, ks)
    && Total(t.keys, t) == |ks|
  }

  /** The `reduce` callback `acc[k] = (acc[k] || 0) + 1`: assigning to an
      absent property appends it to the object's keys. */
  function Step(t: Tally, k: string): (r: Tally)
    ensures r.Get(k) == t.Get(k) + 1
    ensures forall x :: x != k ==> r.Get(x) == t.Get(x)
    ensures t.keys <= r.keys && |r.keys| <= |t.keys| + 1
  {
    Tally(if k in t.counts then t.keys else t.keys + [k], t.counts[k := t.Get(k) + 1])
  }

  /** One step of the `reduce` counts one more key. */
  lemma CountStep(t: Tally, ks: seq<string>, k: string)
    requires Counts(t, ks)
    ensures Counts(Step(t, k), ks + [k])
  {
    var u := Step(t, k);
    assert u.keys == if k in t.keys then t.keys else t.keys + [k];
    StepKeys(t, ks, k);
    StepTotal(t, k);
    StepOrder(t.keys, ks, k);
    assert FirstOccurrenceOrder(u.keys, ks + [k]);
  }

  lemma StepKeys(t: Tally, ks: seq<string>, k: string)
    requires Counts(t, ks)
    ensures forall x :: x in Step(t, k).keys <==> x in ks + [k]
    ensures forall x :: x in Step(t, k).counts <==> x in Step(t, k).keys
    ensures forall x :: Step(t, k).Get(x) == multiset(ks + [k])[x]
  {
  }

  lemma StepTotal(t: Tally, k: string)
    requires NoDup(t.keys)
    requires forall x :: x in t.counts <==> x in t.keys
    ensures NoDup(Step(t, k).keys) && Total(Step(t, k).keys, Step(t, k)) == Total(t.keys, t) + 1
  {
    var u := Step(t, k);
    if k in t.counts {
      TotalBump(t.keys, t, u, k);
    } else {
      AppendNoDup(t.keys, k);
      TotalSame(t.keys, t, u);
      assert u.keys[..|t.keys|] == t.keys;
    }
  }

  /** Appending a key keeps the keys in first-occurrence order, whether the
      key is new (and goes last) or already listed. */
  lemma StepOrder(keys: seq<string>, ks: seq<string>, k: string)
    requires FirstOccurrenceOrder(keys, ks)
    requires forall x :: x in keys <==> x in ks
    ensures FirstOccurrenceOrder(if k in keys then keys else keys + [k], ks + [k])
  {
    if k in keys {
      OrderExtend(keys, ks, [k]);
    } else {
      OrderAppendNew(keys, ks, k);
    }
  }

  /** Extending `ks` keeps every first occurrence where it was. */
  lemma OrderExtend(keys: seq<string>, ks: seq<string>, rest: seq<string>)
    requires FirstOccurrenceOrder(keys, ks)
    ensures FirstOccurrenceOrder(keys, ks + rest)
  {
    forall i | 0 <= i < |keys| ensures keys[i] in ks + rest && FirstIndex(ks + rest, keys[i]) == FirstIndex(ks, keys[i]) {
      FirstIndexExtend(ks, rest, keys[i]);
    }
  }

  /** A key seen for the first time goes after every key seen before. */
  lemma OrderAppendNew(keys: seq<string>, ks: seq<string>, k: string)
    requires FirstOccurrenceOrder(keys, ks)
    requires forall x :: x in keys <==> x in ks
    requires k !in keys
    ensures FirstOccurrenceOrder(keys + [k], ks + [k])
  {
    OrderExtend(keys, ks, [k]);
    assert (ks + [k])[..|ks|] == ks;
    FirstIndexUnique(ks + [k], k, |ks|);
    var keys' := keys + [k];
    forall i | 0 <= i < |keys| ensures FirstIndex(ks + [k], keys[i]) < |ks| {
    }
    forall i, j | 0 <= i < j < |keys'|
      ensures FirstIndex(ks + [k], keys'[i]) < FirstIndex(ks + [k], keys'[j])
    {
      assert keys'[i] == keys[i];
      if j < |keys| {
        assert keys'[j] == keys[j];
      }
    }
  }

  /** The count-by-key `reduce` (`acc[key] = (acc[key] || 0) + 1`): one key
      per distinct value present, in first-occurrence order, each holding the
      number of agreements with that value; the values add up to the number
      of agreements. */
  method CountBy(agreements: seq<Agreement>, field: Field) returns (t: Tally)
    ensures Counts(t, Keys(agreements, field))
  {
    t := Tally([], map[]);
    var i := 0;
    while i < |agreements|
      invariant 0 <= i <= |agreements|
      invariant Counts(t, Keys(agreements[..i], field))
    {
      CountNext(t, agreements, field, i);
      t := Step(t, KeyOf(agreements[i], field));
      i := i + 1;
    }
    KeysExtend(agreements, field, i);
  }

  /** Counting the next agreement's key extends the tally of the prefix. */
  lemma CountNext(t: Tally, agreements: seq<Agreement>, field: Field, i: nat)
    requires i < |agreements| && Counts(t, Keys(agreements[..i], field))
    ensures Counts(Step(t, KeyOf(agreements[i], field)), Keys(agreements[..i + 1], field))
  {
    KeysExtend(agreements, field, i);
    CountStep(t, Keys(agreements[..i], field), KeyOf(agreements[i], field));
  }

  lemma KeysExtend(agreements: seq<Agreement>, field: Field, i: nat)
    requires i <= |agreements|
    ensures i < |agreements| ==> Keys(agreements[..i + 1], field) == Keys(agreements[..i], field) + [KeyOf(agreements[i], field)]
    ensures i == |agreements| ==> Keys(agreements[..i], field) == Keys(agreements, field)
  {
    if i == |agreements| {
      assert agreements[..i] == agreements;
    }
  }

  /** A counter's value is the number of agreements carrying that key. */
  lemma {:induction false} CountIsFilterLength(agreements: seq<Agreement>, field: Field, k: string)
    ensures multiset(Keys(agreements, field))[k] == |Filter(agreements, HasKey(field, k))|
    decreases |agreements|
  {
    if agreements != [] {
      var p := HasKey(field, k);
      var rest := agreements[1..];
      CountIsFilterLength(rest, field, k);
      KeysCons(agreements, field);
      FilterCons(agreements, p);
      assert multiset(Keys(agreements, field)) == multiset([KeyOf(agreements[0], field)]) + multiset(Keys(rest, field));
    }
  }

  lemma KeysCons(agreements: seq<Agreement>, field: Field)
    requires agreements != []
    ensures Keys(agreements, field) == [KeyOf(agreements[0], field)] + Keys(agreements[1..], field)
  {
  }

  // ---------------------------------------------------------------------------
  // Colours

  /** The six colours handed out by position. */
  const Palette: seq<string> := ["#8B4513", "#228B22", "#FF8C00", "#DC143C", "#4169E1", "#9370DB"]

  const Brown := "#8B4513"
  const Green := "#228B22"
  const Orange := "#FF8C00"
  const Red := "#DC143C"

  /** `getColorByIndex`: the palette, cycled. */
  function ColorByIndex(index: nat): (c: string)
    ensures c in Palette
  {
    Palette[index % |Palette|]
  }

  /** The palette repeats with period six and its first six entries are distinct,
      so six consecutive slices never share a colour. */
  lemma ColorByIndexPeriodic(i: nat, j: nat)
    ensures ColorByIndex(i + 6) == ColorByIndex(i)
    ensures i < 6 ==> ColorByIndex(i) == Palette[i]
    ensures i < j < i + 6 ==> ColorByIndex(i) != ColorByIndex(j)
  {
    assert (i + 6) % 6 == i % 6;
    if i < j < i + 6 {
      assert i % 6 != j % 6;
    }
  }

  /** `getStatusColor`: green, red, orange for the three statuses, brown for
      any other string. */
  function StatusColor(status: string): (c: string)
    ensures (exists s :: status == StatusLabel(s)) <==> c != Brown
    ensures c in Palette
  {
    if status == StatusLabel(Active) then Green
    else if status == StatusLabel(Expired) then Red
    else if status == StatusLabel(TacitRenewal) then Orange
    else
      assert forall s :: status != StatusLabel(s);
      Brown
  }

  /** The three statuses get green, red and orange respectively. */
  lemma StatusColors()
    ensures StatusColor(StatusLabel(Active)) == Green
    ensures StatusColor(StatusLabel(Expired)) == Red
    ensures StatusColor(StatusLabel(TacitRenewal)) == Orange
  {
  }

  // ---------------------------------------------------------------------------
  // Chart data

  /** One entry of a pie chart. */
  datatype PieSlice = PieSlice(name: string, population: nat, color: string)

  /** `slice(0, n)` from the start: at most the first `n` elements. */
  function Take<T>(s: seq<T>, n: nat): (r: seq<T>)
    ensures |r| == if |s| <= n then |s| else n
    ensures r == s[..|r|]
  {
    if |s| <= n then s else s[..n]
  }

  /** A duplicate-free list drawn from at most three values has at most three elements. */
  lemma AtMostThree(keys: seq<string>, a: string, b: string, c: string)
    requires NoDup(keys)
    requires forall i :: 0 <= i < |keys| ==> keys[i] == a || keys[i] == b || keys[i] == c
    ensures |keys| <= 3
  {
    NoDupCardinality(keys);
    var members := set x | x in keys;
    assert members <= {a, b, c};
    CardinalityMonotone(members, {a, b, c});
  }

  /** Every type key is one of the three type labels. */
  lemma TypeKeys(agreements: seq<Agreement>)
    ensures forall i :: 0 <= i < |Keys(agreements, TypeField)| ==>
      Keys(agreements, TypeField)[i] == "Accord cadre" || Keys(agreements, TypeField)[i] == "Convention" ||
      Keys(agreements, TypeField)[i] == "Coopération"
  {
    forall i | 0 <= i < |agreements|
      ensures TypeLabel(agreements[i].kind) == "Accord cadre" || TypeLabel(agreements[i].kind) == "Convention" ||
              TypeLabel(agreements[i].kind) == "Coopération"
    {
      match agreements[i].kind
      case FrameworkAgreement =>
      case Convention =>
      case Cooperation =>
    }
  }

  /** Every status key is one of the three status labels. */
  lemma StatusKeys(agreements: seq<Agreement>)
    ensures forall i :: 0 <= i < |Keys(agreements, StatusField)| ==>
      Keys(agreements, StatusField)[i] == "En cours" || Keys(agreements, StatusField)[i] == "Expiré" ||
      Keys(agreements, StatusField)[i] == "Reconduction tacite"
  {
    forall i | 0 <= i < |agreements|
      ensures StatusLabel(agreements[i].status) == "En cours" || StatusLabel(agreements[i].status) == "Expiré" ||
              StatusLabel(agreements[i].status) == "Reconduction tacite"
    {
      match agreements[i].status
      case Active =>
      case Expired =>
      case TacitRenewal =>
    }
  }

  /** No status key gets the fallback colour. */
  lemma StatusKeyColor(agreements: seq<Agreement>, k: string)
    requires k in Keys(agreements, StatusField)
    ensures StatusColor(k) != Brown
  {
    var j :| 0 <= j < |agreements| && Keys(agreements, StatusField)[j] == k;
    assert k == StatusLabel(agreements[j].status);
  }

  lemma CardinalityMonotone(a: set<string>, b: set<string>)
    requires a <= b
    ensures |a| <= |b|
  {
    assert b == a + (b - a);
  }

  /** The colour rule of the type chart: the slice's position in the palette. */
  function ByPosition(): (nat, string) -> string {
    (i: nat, k: string) => ColorByIndex(i)
  }

  /** The colour rule of the status chart: the status colour of the slice's name. */
  function ByStatus(): (nat, string) -> string {
    (i: nat, k: string) => StatusColor(k)
  }

  /** `Object.entries(acc).map(([name, population], index) => ...)`: one slice
      per counter key, in key order, coloured by `color`. */
  function Slices(t: Tally, color: (nat, string) -> string): seq<PieSlice> {
    seq(|t.keys|, i requires 0 <= i < |t.keys| => PieSlice(t.keys[i], t.Get(t.keys[i]), color(i, t.keys[i])))
  }

  /** The slices of a counter of `ks` name each key of `ks` exactly once and
      carry its multiplicity. */
  lemma SliceNames(t: Tally, ks: seq<string>, color: (nat, string) -> string)
    requires Counts(t, ks)
    ensures forall k :: k in ks <==> exists i :: 0 <= i < |Slices(t, color)| && Slices(t, color)[i].name == k
    ensures forall i, j :: 0 <= i < j < |Slices(t, color)| ==> Slices(t, color)[i].name != Slices(t, color)[j].name
  {
    var r := Slices(t, color);
    forall k | k in ks ensures exists i :: 0 <= i < |r| && r[i].name == k {
      var i :| 0 <= i < |t.keys| && t.keys[i] == k;
      assert r[i].name == k;
    }
  }

  lemma SlicePopulations(t: Tally, ks: seq<string>, color: (nat, string) -> string)
    requires Counts(t, ks)
    ensures forall i :: 0 <= i < |Slices(t, color)| ==>
      Slices(t, color)[i].population == multiset(ks)[Slices(t, color)[i].name] &&
      Slices(t, color)[i].color == color(i, Slices(t, color)[i].name)
  {
  }

  /** The slices of a counter of `ks` come in the order in which their keys
      first occur in `ks`. */
  lemma SliceOrder(t: Tally, ks: seq<string>, color: (nat, string) -> string)
    requires Counts(t, ks)
    ensures forall i, j :: 0 <= i < j < |Slices(t, color)| ==>
      Slices(t, color)[i].name in ks && Slices(t, color)[j].name in ks &&
      FirstIndex(ks, Slices(t, color)[i].name) < FirstIndex(ks, Slices(t, color)[j].name)
  {
    var r := Slices(t, color);
    assert forall i :: 0 <= i < |r| ==> r[i].name == t.keys[i];
  }

  /** A counter of keys drawn from three values has at most three keys. */
  lemma ThreeKeys(t: Tally, ks: seq<string>, a: string, b: string, c: string)
    requires Counts(t, ks)
    requires forall i :: 0 <= i < |ks| ==> ks[i] == a || ks[i] == b || ks[i] == c
    ensures |t.keys| <= 3
  {
    forall i | 0 <= i < |t.keys| ensures t.keys[i] == a || t.keys[i] == b || t.keys[i] == c {
      assert t.keys[i] in ks;
    }
    AtMostThree(t.keys, a, b, c);
  }

  /** The type pie chart: one slice per agreement type present, in
      first-occurrence order, holding its tally and the colour of its position. */
  method TypePieChart(agreements: seq<Agreement>) returns (slices: seq<PieSlice>)
    ensures |slices| <= 3
    ensures forall k :: k in Keys(agreements, TypeField) <==> exists i :: 0 <= i < |slices| && slices[i].name == k
    ensures forall i, j :: 0 <= i < j < |slices| ==> slices[i].name != slices[j].name
    ensures forall i, j :: 0 <= i < j < |slices| ==>
      slices[i].name in Keys(agreements, TypeField) && slices[j].name in Keys(agreements, TypeField) &&
      FirstIndex(Keys(agreements, TypeField), slices[i].name) < FirstIndex(Keys(agreements, TypeField), slices[j].name)
    ensures forall i :: 0 <= i < |slices| ==>
      slices[i].population == multiset(Keys(agreements, TypeField))[slices[i].name] &&
      slices[i].color == ColorByIndex(i)
  {
    var t := CountBy(agreements, TypeField);
    ghost var ks := Keys(agreements, TypeField);
    slices := Slices(t, ByPosition());
    SliceNames(t, ks, ByPosition());
    SlicePopulations(t, ks, ByPosition());
    SliceOrder(t, ks, ByPosition());
    TypeKeys(agreements);
    ThreeKeys(t, ks, "Accord cadre", "Convention", "Coopération");
  }

  /** The status pie chart: one slice per status present, in first-occurrence
      order, holding its tally and its status colour, which is never the
      fallback brown. */
  method StatusPieChart(agreements: seq<Agreement>) returns (slices: seq<PieSlice>)
    ensures |slices| <= 3
    ensures forall k :: k in Keys(agreements, StatusField) <==> exists i :: 0 <= i < |slices| && slices[i].name == k
    ensures forall i, j :: 0 <= i < j < |slices| ==> slices[i].name != slices[j].name
    ensures forall i, j :: 0 <= i < j < |slices| ==>
      slices[i].name in Keys(agreements, StatusField) && slices[j].name in Keys(agreements, StatusField) &&
      FirstIndex(Keys(agreements, StatusField), slices[i].name) < FirstIndex(Keys(agreements, StatusField), slices[j].name)
    ensures forall i :: 0 <= i < |slices| ==>
      slices[i].population == multiset(Keys(agreements, StatusField))[slices[i].name] &&
      slices[i].color == StatusColor(slices[i].name) && slices[i].color != Brown
  {
    var t := CountBy(agreements, StatusField);
    ghost var ks := Keys(agreements, StatusField);
    slices := Slices(t, ByStatus());
    SliceNames(t, ks, ByStatus());
    SlicePopulations(t, ks, ByStatus());
    SliceOrder(t, ks, ByStatus());
    StatusKeys(agreements);
    ThreeKeys(t, ks, "En cours", "Expiré", "Reconduction tacite");
    forall i | 0 <= i < |slices| ensures slices[i].color != Brown {
      assert slices[i].name == t.keys[i];
      StatusKeyColor(agreements, slices[i].name);
    }
  }

  /** A prefix of a first-occurrence-ordered, duplicate-free key list is
      again both. */
  lemma PrefixOrder(keys: seq<string>, ks: seq<string>, n: nat)
    requires n <= |keys| && NoDup(keys) && FirstOccurrenceOrder(keys, ks)
    ensures NoDup(keys[..n]) && FirstOccurrenceOrder(keys[..n], ks)
  {
    assert forall i :: 0 <= i < n ==> keys[..n][i] == keys[i];
  }

  /** A key of `ks` missing from the first `n` keys comes after all of them
      in `ks`. */
  lemma PrefixLeftOut(keys: seq<string>, ks: seq<string>, n: nat, d: string)
    requires n <= |keys| && FirstOccurrenceOrder(keys, ks)
    requires d in keys && d !in keys[..n]
    ensures forall i :: 0 <= i < n ==> FirstIndex(ks, keys[i]) < FirstIndex(ks, d)
  {
    var p :| 0 <= p < |keys| && keys[p] == d;
  }

  /** The first six keys of a counter of `ks` and their values, index for index. */
  lemma BarData(t: Tally, ks: seq<string>)
    requires Counts(t, ks)
    ensures |Take(t.keys, 6)| == |Take(t.Values(), 6)| <= 6
    ensures forall i :: 0 <= i < |Take(t.keys, 6)| ==> Take(t.Values(), 6)[i] == multiset(ks)[Take(t.keys, 6)[i]]
  {
    var n := if |t.keys| <= 6 then |t.keys| else 6;
    assert Take(t.keys, 6) == t.keys[..n];
    assert forall i :: 0 <= i < n ==> Take(t.Values(), 6)[i] == t.Get(t.keys[i]);
  }

  /** The first six keys of a counter of `ks` keep first-occurrence order, and
      a key is dropped only when six keys occurring earlier fill the chart. */
  lemma BarOrder(t: Tally, ks: seq<string>)
    requires Counts(t, ks)
    ensures NoDup(Take(t.keys, 6))
    ensures FirstOccurrenceOrder(Take(t.keys, 6), ks)
    ensures forall d :: d in ks && d !in Take(t.keys, 6) ==>
      |Take(t.keys, 6)| == 6 &&
      forall i :: 0 <= i < 6 ==> FirstIndex(ks, Take(t.keys, 6)[i]) < FirstIndex(ks, d)
  {
    var n := if |t.keys| <= 6 then |t.keys| else 6;
    var labels := Take(t.keys, 6);
    assert labels == t.keys[..n];
    PrefixOrder(t.keys, ks, n);
    forall d | d in ks && d !in labels
      ensures |labels| == 6
      ensures forall i :: 0 <= i < 6 ==> FirstIndex(ks, labels[i]) < FirstIndex(ks, d)
    {
      assert d in t.keys;
      PrefixLeftOut(t.keys, ks, n, d);
    }
  }

  /** The domain bar chart: the first six domains in first-occurrence order
      and their tallies, index for index. A domain is left out only when six
      domains occurring earlier fill the chart. */
  method DomainBarChart(agreements: seq<Agreement>) returns (labels: seq<string>, data: seq<nat>)
    ensures |labels| == |data| <= 6
    ensures NoDup(labels)
    ensures forall i :: 0 <= i < |labels| ==> data[i] == multiset(Keys(agreements, DomainField))[labels[i]]
    ensures FirstOccurrenceOrder(labels, Keys(agreements, DomainField))
    ensures forall d :: d in Keys(agreements, DomainField) && d !in labels ==>
      |labels| == 6 &&
      forall i :: 0 <= i < 6 ==> FirstIndex(Keys(agreements, DomainField), labels[i]) < FirstIndex(Keys(agreements, DomainField), d)
  {
    var t := CountBy(agreements, DomainField);
    labels := Take(t.keys, 6);
    data := Take(t.Values(), 6);
    BarData(t, Keys(agreements, DomainField));
    BarOrder(t, Keys(agreements, DomainField));
  }

  /** The "active agreements" card: the `'En cours'` tally, 0 when no
      agreement has that status. */
  method ActiveAgreements(agreements: seq<Agreement>) returns (n: nat)
    ensures n == |Filter(agreements, HasKey(StatusField, StatusLabel(Active)))|
    ensures n == 0 <==> forall i :: 0 <= i < |agreements| ==> agreements[i].status != Active
  {
    var t := CountBy(agreements, StatusField);
    n := t.Get("En cours");
    CountIsFilterLength(agreements, StatusField, StatusLabel(Active));
    NoneActive(agreements);
  }

  /** No agreement is counted under `'En cours'` exactly when none is active. */
  lemma NoneActive(agreements: seq<Agreement>)
    ensures Filter(agreements, HasKey(StatusField, StatusLabel(Active))) == [] <==>
            forall i :: 0 <= i < |agreements| ==> agreements[i].status != Active
  {
    FilterEmpty(agreements, HasKey(StatusField, StatusLabel(Active)));
    forall i | 0 <= i < |agreements|
      ensures HasKey(StatusField, StatusLabel(Active))(agreements[i]) <==> agreements[i].status == Active
    {
      LabelsInjective(FrameworkAgreement, FrameworkAgreement, agreements[i].status, Active);
    }
  }

  // ---------------------------------------------------------------------------
  // Top partners

  predicate SortedByCount(s: seq<Partner>) {
    forall i, j :: 0 <= i < j < |s| ==> s[i].agreementsCount >= s[j].agreementsCount
  }

  /** `partners.sort((a, b) => b.agreementsCount - a.agreementsCount)`: an
      in-place sort into non-increasing count order. */
  method SortByCount(a: array<Partner>)
    modifies a
    ensures SortedByCount(a[..])
    ensures multiset(a[..]) == old(multiset(a[..]))
  {
    var i := 0;
    while i < a.Length
      invariant 0 <= i <= a.Length
      invariant SortedByCount(a[..i])
      invariant multiset(a[..]) == old(multiset(a[..]))
    {
      Sink(a, i);
      i := i + 1;
    }
    assert a[..i] == a[..];
  }

  /** One pass of insertion: moves `a[i]` left past every entry with a smaller
      count, so that `a[..i + 1]` becomes sorted. */
  method Sink(a: array<Partner>, i: nat)
    requires i < a.Length && SortedByCount(a[..i])
    modifies a
    ensures SortedByCount(a[..i + 1])
    ensures multiset(a[..]) == old(multiset(a[..]))
  {
    var j := i;
    SinkStart(a[..], i);
    while j > 0 && a[j - 1].agreementsCount < a[j].agreementsCount
      invariant SinkInv(a[..], j, i)
      invariant multiset(a[..]) == old(multiset(a[..]))
    {
      SinkStep(a[..], j, i);
      a[j - 1], a[j] := a[j], a[j - 1];
      j := j - 1;
    }
    SinkDone(a[..], j, i);
  }

  /** Within `s[..i + 1]`, only the entry at `j` may be out of order, and it
      has a larger count than everything after it. */
  ghost predicate SinkInv(s: seq<Partner>, j: int, i: int) {
    && 0 <= j <= i < |s|
    && (forall x, y :: 0 <= x < y <= i && x != j && y != j ==> s[x].agreementsCount >= s[y].agreementsCount)
    && (forall y :: j < y <= i ==> s[j].agreementsCount > s[y].agreementsCount)
  }

  lemma SinkStart(s: seq<Partner>, i: nat)
    requires i < |s| && SortedByCount(s[..i])
    ensures SinkInv(s, i, i)
  {
    assert forall x :: 0 <= x < i ==> s[..i][x] == s[x];
  }

  lemma SinkStep(s: seq<Partner>, j: int, i: int)
    requires SinkInv(s, j, i) && j > 0 && s[j - 1].agreementsCount < s[j].agreementsCount
    ensures SinkInv(s[j - 1 := s[j]][j := s[j - 1]], j - 1, i)
  {
  }

  lemma SinkDone(s: seq<Partner>, j: int, i: int)
    requires SinkInv(s, j, i) && (j == 0 || s[j - 1].agreementsCount >= s[j].agreementsCount)
    ensures SortedByCount(s[..i + 1])
  {
    assert forall x :: 0 <= x <= i ==> s[..i + 1][x] == s[x];
  }

  /** The "top partner countries" list: the partners array is sorted in
      place, then its first five entries are shown. */
  method TopPartners(a: array<Partner>) returns (top: seq<Partner>)
    modifies a
    ensures multiset(a[..]) == old(multiset(a[..]))
    ensures SortedByCount(a[..])
    ensures |top| == if a.Length < 5 then a.Length else 5
    ensures top == a[..|top|]
    ensures SortedByCount(top)
    ensures forall i, j :: 0 <= i < |top| <= j < a.Length ==> top[i].agreementsCount >= a[j].agreementsCount
  {
    SortByCount(a);
    top := Take(a[..], 5);
  }

  // ---------------------------------------------------------------------------
  // Timeline

  /** The years the timeline shows. */
  const TimelineYears: seq<string> := ["2024", "2023", "2022"]

  /** Selects the agreements starting in `year`. */
  function StartsIn(year: string): Agreement -> bool {
    (a: Agreement) => StartsWith(a.startDate, year)
  }

  /** `agreements.filter(a => a.startDate.startsWith(year)).length`. */
  function YearCount(agreements: seq<Agreement>, year: string): (n: nat)
    ensures n <= |agreements|
    ensures n == 0 <==> forall i :: 0 <= i < |agreements| ==> !StartsWith(agreements[i].startDate, year)
  {
    FilterEmpty(agreements, StartsIn(year));
    |Filter(agreements, StartsIn(year))|
  }

  /** No agreement is counted under two of the timeline's years, so their
      counts add up to at most the number of agreements. */
  lemma TimelineBounded(agreements: seq<Agreement>)
    ensures YearCount(agreements, TimelineYears[0]) + YearCount(agreements, TimelineYears[1]) +
            YearCount(agreements, TimelineYears[2]) <= |agreements|
  {
    forall a: Agreement
      ensures !(StartsIn("2024")(a) && StartsIn("2023")(a))
      ensures !(StartsIn("2024")(a) && StartsIn("2022")(a))
      ensures !(StartsIn("2023")(a) && StartsIn("2022")(a))
    {
      StartsWithExclusive(a.startDate, "2024", "2023");
      StartsWithExclusive(a.startDate, "2024", "2022");
      StartsWithExclusive(a.startDate, "2023", "2022");
    }
    FilterDisjoint3(agreements, StartsIn("2024"), StartsIn("2023"), StartsIn("2022"));
  }
}
