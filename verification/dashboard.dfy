/** The dashboard's statistics over the fetched transactions: income and
    expense totals, sums per category name, and the list of recent ones. */
module Dashboard {
  import opened Wrappers

  const Fallback := "Lainnya"
  const RecentCount := 10

  /** The embedded `categories(name)` relation of a transaction row: absent,
      a single object, or a list of objects. A `None` name stands for a null
      name as well as a null list entry. */
  datatype Embed = NoEmbed | EmbedObject(name: Option<string>) | EmbedList(entries: seq<Option<string>>)

  /** A fetched transaction; amounts are natural numbers. */
  datatype Tx = Tx(description: string, amount: nat, txType: Option<string>, categories: Embed, txDate: string)

  /** `t.categories?.[0]?.name ?? 'Lainnya'`: only a list embed can supply a
      name; indexing an object with 0 yields nothing. */
  function CategoryOf(t: Tx): (c: string)
    ensures c != Fallback ==> t.categories.EmbedList? && |t.categories.entries| > 0 && t.categories.entries[0] == Some(c)
    ensures t.categories.EmbedList? && |t.categories.entries| > 0 && t.categories.entries[0].Some? ==>
              c == t.categories.entries[0].value
  {
    match t.categories
    case EmbedList(es) => if |es| > 0 && es[0].Some? then es[0].value else Fallback
    case _ => Fallback
  }

  /** The category name as the page evidently means to read it: the name of an
      object embed, or of the first entry of a list embed. */
  function IntendedCategoryOf(t: Tx): (c: string)
    ensures t.categories.EmbedObject? && t.categories.name.Some? ==> c == t.categories.name.value
    ensures t.categories.EmbedList? ==> c == CategoryOf(t)
    ensures t.categories.NoEmbed? || t.categories == EmbedObject(None) ==> c == Fallback
  {
    match t.categories
    case EmbedObject(n) => if n.Some? then n.value else Fallback
    case _ => CategoryOf(t)
  }

  /** A single-object embed, the shape a many-to-one relation is fetched in,
      never reaches the per-category keys under the page's reading. */
  lemma ObjectEmbedAlwaysFallback(t: Tx)
    requires t.categories.EmbedObject?
    ensures CategoryOf(t) == Fallback
  {
  }

  /** The two readings differ exactly on object embeds that carry a name other
      than the fallback. */
  lemma ReadingsDiffer(t: Tx)
    ensures CategoryOf(t) != IntendedCategoryOf(t) <==>
              t.categories.EmbedObject? && t.categories.name.Some? && t.categories.name.value != Fallback
  {
  }

  /** The sum of the amounts of the transactions. */
  function SumAll(txs: seq<Tx>): nat {
    if txs == [] then 0 else SumAll(txs[..|txs| - 1]) + txs[|txs| - 1].amount
  }

  /** `txs.filter(t => t.type === kind)`: the transactions of type `kind`, in order. */
  function FilterKind(txs: seq<Tx>, kind: string): (f: seq<Tx>)
    ensures forall t :: t in f <==> t in txs && t.txType == Some(kind)
  {
    if txs == [] then []
    else (if txs[0].txType == Some(kind) then [txs[0]] else []) + FilterKind(txs[1..], kind)
  }

  /** Filtering a list with one more transaction at the end. */
  lemma {:induction false} FilterKindSnoc(txs: seq<Tx>, t: Tx, kind: string)
    ensures FilterKind(txs + [t], kind) == FilterKind(txs, kind) + if t.txType == Some(kind) then [t] else []
  {
    var s := txs + [t];
    if txs == [] {
      assert s[1..] == [];
    } else {
      assert s[0] == txs[0] && s[1..] == txs[1..] + [t];
      FilterKindSnoc(txs[1..], t, kind);
    }
  }

  lemma SumAllSnoc(txs: seq<Tx>, t: Tx)
    ensures SumAll(txs + [t]) == SumAll(txs) + t.amount
  {
    assert (txs + [t])[..|txs|] == txs;
  }

  /** The filtered sum over a list with one more transaction at the end. */
  lemma FilteredSumSnoc(txs: seq<Tx>, t: Tx, kind: string)
    ensures SumAll(FilterKind(txs + [t], kind)) ==
              SumAll(FilterKind(txs, kind)) + if t.txType == Some(kind) then t.amount else 0
  {
    FilterKindSnoc(txs, t, kind);
    if t.txType == Some(kind) {
      SumAllSnoc(FilterKind(txs, kind), t);
    } else {
      assert FilterKind(txs, kind) + [] == FilterKind(txs, kind);
    }
  }

  /** `FilterKind(txs, kind).reduce((sum, t) => sum + Number(t.amount), 0)`,
      computed as one pass that adds the amounts of type `kind`. */
  function SumKind(txs: seq<Tx>, kind: string): (s: nat)
    ensures s == SumAll(FilterKind(txs, kind))
    ensures s <= SumAll(txs)
    ensures (forall i :: 0 <= i < |txs| ==> txs[i].txType != Some(kind)) ==> s == 0
    ensures (forall i :: 0 <= i < |txs| ==> txs[i].txType == Some(kind)) ==> s == SumAll(txs)
  {
    if txs == [] then 0
    else
      var init, last := txs[..|txs| - 1], txs[|txs| - 1];
      SumKindStep(txs, kind);
      SumKind(init, kind) + if last.txType == Some(kind) then last.amount else 0
  }

  /** How the sums over a non-empty list relate to those over all but its last
      transaction. */
  lemma SumKindStep(txs: seq<Tx>, kind: string)
    requires txs != []
    ensures var init, last := txs[..|txs| - 1], txs[|txs| - 1];
      && SumAll(txs) == SumAll(init) + last.amount
      && SumAll(FilterKind(txs, kind)) == SumAll(FilterKind(init, kind)) + (if last.txType == Some(kind) then last.amount else 0)
      && forall i :: 0 <= i < |init| ==> init[i] == txs[i]
  {
    var init, last := txs[..|txs| - 1], txs[|txs| - 1];
    assert init + [last] == txs;
    FilteredSumSnoc(init, last, kind);
  }

  /** A total over the query result: the sum of the amounts of type `kind`,
      or 0 when the query failed (null data). */
  function KindTotal(data: Option<seq<Tx>>, kind: string): (total: nat)
    ensures data.None? ==> total == 0
    ensures data.Some? ==> total == SumAll(FilterKind(data.value, kind))
  {
    if data.None? then 0 else SumKind(data.value, kind)
  }

  function IncomeTotal(data: Option<seq<Tx>>): nat {
    KindTotal(data, "income")
  }

  function ExpenseTotal(data: Option<seq<Tx>>): nat {
    KindTotal(data, "expense")
  }

  /** The amounts of the transactions that are neither income nor expense. */
  function SumOther(txs: seq<Tx>): nat {
    if txs == [] then 0
    else
      var last := txs[|txs| - 1];
      SumOther(txs[..|txs| - 1]) + if last.txType != Some("income") && last.txType != Some("expense") then last.amount else 0
  }

  /** Every amount is counted in the income total, the expense total, or
      neither, and never in both. */
  lemma {:induction false} TotalsPartition(txs: seq<Tx>)
    ensures SumKind(txs, "income") + SumKind(txs, "expense") + SumOther(txs) == SumAll(txs)
  {
    if txs != [] {
      TotalsPartition(txs[..|txs| - 1]);
    }
  }

  /** The sums over a list with one more transaction. */
  lemma SumsSnoc(txs: seq<Tx>, t: Tx, kind: string)
    ensures var s := txs + [t];
      s[..|s| - 1] == txs && SumAll(s) == SumAll(txs) + t.amount &&
      SumKind(s, kind) == SumKind(txs, kind) + (if t.txType == Some(kind) then t.amount else 0)
  {
    var s := txs + [t];
    assert s[..|s| - 1] == txs;
  }

  /** `acc[cat]` with a missing key read as 0 (`if (!acc[cat]) acc[cat] = 0`). */
  function Current(acc: map<string, nat>, cat: string): nat {
    if cat in acc then acc[cat] else 0
  }

  /** The reduction into the per-category object, applied left to right with
      the category reader `category`. */
  function Tally(txs: seq<Tx>, category: Tx -> string): map<string, nat> {
    if txs == [] then map[]
    else
      var acc := Tally(txs[..|txs| - 1], category);
      var t := txs[|txs| - 1];
      var c := category(t);
      acc[c := Current(acc, c) + t.amount]
  }

  /** `categoryStats`: the tally of the fetched rows under the page's reader,
      or the empty object for null data. */
  function CategoryStats(data: Option<seq<Tx>>): (stats: map<string, nat>)
    ensures data.None? ==> stats == map[]
    ensures data.Some? ==> forall c :: c in stats <==> Occurs(data.value, CategoryOf, c)
    ensures data.Some? ==> forall c :: c in stats ==> stats[c] == CategorySum(data.value, CategoryOf, c)
  {
    if data.None? then map[]
    else
      TallyContents(data.value, CategoryOf);
      Tally(data.value, CategoryOf)
  }

  /** The tally with the intended reader. */
  function IntendedCategoryStats(data: Option<seq<Tx>>): (stats: map<string, nat>)
    ensures data.None? ==> stats == map[]
  {
    if data.None? then map[] else Tally(data.value, IntendedCategoryOf)
  }

  /** The reference per-category sum: the amounts of the transactions whose
      category is `c`. */
  function CategorySum(txs: seq<Tx>, category: Tx -> string, c: string): nat {
    if txs == [] then 0
    else
      var t := txs[|txs| - 1];
      CategorySum(txs[..|txs| - 1], category, c) + if category(t) == c then t.amount else 0
  }

  /** The keys of the tally are exactly the categories that occur, and each
      key holds the reference sum of its transactions. */
  lemma {:induction false} TallyContents(txs: seq<Tx>, category: Tx -> string)
    ensures forall c :: c in Tally(txs, category) <==> Occurs(txs, category, c)
    ensures forall c :: c in Tally(txs, category) ==> Tally(txs, category)[c] == CategorySum(txs, category, c)
  {
    if txs != [] {
      var init := txs[..|txs| - 1];
      TallyContents(init, category);
      forall c
        ensures Occurs(txs, category, c) <==> Occurs(init, category, c) || category(txs[|txs| - 1]) == c
      {
        if Occurs(txs, category, c) {
          var i :| 0 <= i < |txs| && category(txs[i]) == c;
          if i < |init| {
            assert category(init[i]) == c;
          }
        }
        if Occurs(init, category, c) {
          var i :| 0 <= i < |init| && category(init[i]) == c;
          assert category(txs[i]) == c;
        }
      }
      forall c | c in Tally(txs, category) && c !in Tally(init, category)
        ensures CategorySum(init, category, c) == 0
      {
        CategorySumAbsent(init, category, c);
      }
    }
  }

  /** Some transaction has category `c`. */
  predicate Occurs(txs: seq<Tx>, category: Tx -> string, c: string) {
    exists i :: 0 <= i < |txs| && category(txs[i]) == c
  }

  /** A category that does not occur sums to 0. */
  lemma {:induction false} CategorySumAbsent(txs: seq<Tx>, category: Tx -> string, c: string)
    requires forall i :: 0 <= i < |txs| ==> category(txs[i]) != c
    ensures CategorySum(txs, category, c) == 0
  {
    if txs != [] {
      CategorySumAbsent(txs[..|txs| - 1], category, c);
    }
  }

  /** The sum of the values of a map. */
  ghost function ValueSum(m: map<string, nat>): nat
    decreases |m|
  {
    if m == map[] then 0
    else
      var k := PickKey(m);
      m[k] + ValueSum(m - {k})
  }

  ghost function PickKey(m: map<string, nat>): (k: string)
    requires m != map[]
    ensures k in m
  {
    var k :| k in m; k
  }

  /** The value sum does not depend on which key is taken out first. */
  lemma {:induction false} ValueSumRemove(m: map<string, nat>, k: string)
    requires k in m
    ensures ValueSum(m) == m[k] + ValueSum(m - {k})
    decreases |m|
  {
    var j := PickKey(m);
    if j != k {
      var mj := m - {j};
      var mk := m - {k};
      assert k in mj && j in mk;
      ValueSumRemove(mj, k);
      ValueSumRemove(mk, j);
      assert mj - {k} == mk - {j};
    }
  }

  /** Every transaction lands under exactly one key: the values of the tally
      add up to the total of all amounts. */
  lemma {:induction false} TallySumsAll(txs: seq<Tx>, category: Tx -> string)
    ensures ValueSum(Tally(txs, category)) == SumAll(txs)
  {
    if txs != [] {
      var init := txs[..|txs| - 1];
      var t := txs[|txs| - 1];
      TallySumsAll(init, category);
      ValueSumAdd(Tally(init, category), category(t), t.amount);
    }
  }

  /** Adding an amount under one key adds it to the value sum. */
  lemma ValueSumAdd(acc: map<string, nat>, c: string, a: nat)
    ensures ValueSum(acc[c := Current(acc, c) + a]) == ValueSum(acc) + a
  {
    var next := acc[c := Current(acc, c) + a];
    ValueSumRemove(next, c);
    assert next - {c} == acc - {c};
    if c in acc {
      ValueSumRemove(acc, c);
    } else {
      assert acc - {c} == acc;
    }
  }

  /** The page's figures: both totals and the per-category map, which are
      empty for null data and otherwise agree with the reference sums. */
  lemma StatsOfData(data: Option<seq<Tx>>)
    ensures data.None? ==> IncomeTotal(data) == 0 && ExpenseTotal(data) == 0 && CategoryStats(data) == map[]
    ensures data.Some? ==> ValueSum(CategoryStats(data)) == SumAll(data.value)
    ensures data.Some? ==> forall c :: c in CategoryStats(data) <==> Occurs(data.value, CategoryOf, c)
  {
    if data.Some? {
      TallySumsAll(data.value, CategoryOf);
      TallyContents(data.value, CategoryOf);
    }
  }

  /** A transaction of another type leaves both totals alone but still adds its
      amount under its category. */
  lemma OtherTypeOnlyInStats(txs: seq<Tx>, t: Tx, category: Tx -> string)
    requires t.txType != Some("income") && t.txType != Some("expense")
    ensures SumKind(txs + [t], "income") == SumKind(txs, "income")
    ensures SumKind(txs + [t], "expense") == SumKind(txs, "expense")
    ensures var c := category(t);
      c in Tally(txs + [t], category) && Tally(txs + [t], category)[c] == Current(Tally(txs, category), c) + t.amount
  {
    SumsSnoc(txs, t, "income");
    SumsSnoc(txs, t, "expense");
  }

  /** Fetched with object embeds, as a many-to-one relation is, every
      transaction lands under the fallback key. */
  lemma {:induction false} ObjectEmbedsCollapse(txs: seq<Tx>)
    requires txs != []
    requires forall i :: 0 <= i < |txs| ==> txs[i].categories.EmbedObject?
    ensures CategoryStats(Some(txs)) == map[Fallback := SumAll(txs)]
  {
    var init, t := txs[..|txs| - 1], txs[|txs| - 1];
    assert CategoryOf(t) == Fallback;
    if init != [] {
      ObjectEmbedsCollapse(init);
      assert Tally(init, CategoryOf) == map[Fallback := SumAll(init)];
    } else {
      assert Tally(init, CategoryOf) == map[];
    }
  }

  /** With the intended reader, object embeds with names are tallied under
      exactly those names. */
  lemma IntendedStatsByName(txs: seq<Tx>)
    requires forall i :: 0 <= i < |txs| ==> txs[i].categories.EmbedObject? && txs[i].categories.name.Some?
    ensures forall c :: c in IntendedCategoryStats(Some(txs)) <==>
              exists i :: 0 <= i < |txs| && txs[i].categories.name == Some(c)
  {
    TallyContents(txs, IntendedCategoryOf);
    forall c
      ensures Occurs(txs, IntendedCategoryOf, c) <==> exists i :: 0 <= i < |txs| && txs[i].categories.name == Some(c)
    {
      if exists i :: 0 <= i < |txs| && txs[i].categories.name == Some(c) {
        var i :| 0 <= i < |txs| && txs[i].categories.name == Some(c);
        assert IntendedCategoryOf(txs[i]) == c;
      }
    }
  }

  /** What the recent-transactions list shows. */
  datatype Listing = Placeholder | Rows(shown: seq<Tx>)

  /** `txs && txs.length > 0 ? txs.slice(0, 10) : placeholder`. */
  function Recent(data: Option<seq<Tx>>): (r: Listing)
    ensures r.Rows? <==> data.Some? && data.value != []
    ensures r.Rows? ==> |r.shown| == (if |data.value| < RecentCount then |data.value| else RecentCount)
    ensures r.Rows? ==> r.shown == data.value[..|r.shown|]
  {
    if data.Some? && data.value != [] then
      Rows(data.value[..if |data.value| < RecentCount then |data.value| else RecentCount])
    else Placeholder
  }

  /** Rows after the tenth never change the list. */
  lemma RecentIgnoresOlder(txs: seq<Tx>, older: seq<Tx>)
    requires |txs| >= RecentCount
    ensures Recent(Some(txs + older)) == Recent(Some(txs))
  {
    assert (txs + older)[..RecentCount] == txs[..RecentCount];
  }
}
