/** The confirmation message of the classify endpoint, built from the expense
    and income totals of the stored rows and formatted for the id-ID locale. */
module Summary {
  import opened Wrappers
  import opened JsText
  import opened JsValues
  import Locale

  const Heading := "Transaksi dicatat:"
  const IncomeOnlyHead := Heading + "\n -Pemasukan Rp "
  const ExpenseOnlyHead := Heading + "\n -Pengeluaran Rp "
  /** The two-line message has a blank before its first line break. */
  const BothHead := Heading + " \n -Pengeluaran Rp "
  const IncomeTail := "\n -Pemasukan Rp "

  /** The message of the three-way choice: income only when the expense total is
      not above zero, expense only when the income total is not above zero, both
      otherwise. Each variant goes through `trim()`, which changes nothing. */
  function Message(expense: Num, income: Num): (r: string)
    ensures Trimmed(r)
    ensures AtMostZero(expense) ==> r == IncomeOnlyHead + Format(income)
    ensures !AtMostZero(expense) && AtMostZero(income) ==> r == ExpenseOnlyHead + Format(expense)
    ensures !AtMostZero(expense) && !AtMostZero(income) ==>
              r == BothHead + Format(expense) + IncomeTail + Format(income)
  {
    HeadsDiffer();
    if AtMostZero(expense) then
      TemplateTrimmed(IncomeOnlyHead, income);
      Trim(IncomeOnlyHead + Format(income))
    else if AtMostZero(income) then
      TemplateTrimmed(ExpenseOnlyHead, expense);
      Trim(ExpenseOnlyHead + Format(expense))
    else
      var head := BothHead + Format(expense) + IncomeTail;
      assert head[0] == BothHead[0];
      TemplateTrimmed(head, income);
      Trim(head + Format(income))
  }

  /** Formatted numbers begin and end with a digit, or spell "NaN". */
  lemma FormatEdges(x: Num)
    ensures var f := Format(x); |f| >= 1 && !IsSpace(f[0]) && !IsSpace(f[|f| - 1])
  {
    var f := Format(x);
    if x.Fin? {
      var g := Locale.Group(x.n);
      assert Locale.IsDigit(g[0]);
      assert Locale.IsDigit(g[|g| - 1]) by {
        assert g[|g| - 1] != '.' by {
          assert (|g| - (|g| - 1)) % 4 == 1;
        }
      }
    }
  }

  /** A message that starts with non-space text and ends in a formatted number
      is already trimmed. */
  lemma TemplateTrimmed(head: string, last: Num)
    requires |head| >= 1 && !IsSpace(head[0])
    ensures Trim(head + Format(last)) == head + Format(last)
  {
    FormatEdges(last);
    var f := Format(last);
    var m := head + f;
    assert m[|m| - 1] == f[|f| - 1];
    assert m[0] == head[0];
  }

  /** The amount a reader sees: the figure with its group separators dropped. */
  function ReadAmount(s: string): Option<nat> {
    var d := Locale.RemoveDots(s);
    if d != [] && Locale.AllDigits(d) then Some(Locale.DecimalValue(d)) else None
  }

  /** A finite total reads back as itself from its formatted text. */
  lemma FormatReadsBack(x: Num)
    requires x.Fin?
    ensures ReadAmount(Format(x)) == Some(x.n)
  {
    Locale.DigitsRoundTrip(x.n);
  }

  /** The opening of the message tells which variant was chosen: the income-only
      heading exactly when the expense total is not above zero, the two-line
      heading exactly when neither total is. */
  lemma MessageVariant(expense: Num, income: Num)
    ensures StartsWith(Message(expense, income), IncomeOnlyHead) <==> AtMostZero(expense)
    ensures StartsWith(Message(expense, income), ExpenseOnlyHead) <==> !AtMostZero(expense) && AtMostZero(income)
    ensures StartsWith(Message(expense, income), BothHead) <==> !AtMostZero(expense) && !AtMostZero(income)
  {
    if AtMostZero(expense) {
      IncomeOnlyVariant(expense, income);
    } else if AtMostZero(income) {
      ExpenseOnlyVariant(expense, income);
    } else {
      BothVariant(expense, income);
    }
  }

  lemma IncomeOnlyVariant(expense: Num, income: Num)
    requires AtMostZero(expense)
    ensures var r := Message(expense, income);
      StartsWith(r, IncomeOnlyHead) && !StartsWith(r, ExpenseOnlyHead) && !StartsWith(r, BothHead)
  {
    var f := Format(income);
    var r := IncomeOnlyHead + f;
    HeadsDiffer();
    Prefixed(IncomeOnlyHead, f, 23);
    Prefixed(IncomeOnlyHead, f, 18);
    NotPrefixAt(r, ExpenseOnlyHead, 23);
    NotPrefixAt(r, BothHead, 18);
  }

  lemma ExpenseOnlyVariant(expense: Num, income: Num)
    requires !AtMostZero(expense) && AtMostZero(income)
    ensures var r := Message(expense, income);
      StartsWith(r, ExpenseOnlyHead) && !StartsWith(r, IncomeOnlyHead) && !StartsWith(r, BothHead)
  {
    var f := Format(expense);
    var r := ExpenseOnlyHead + f;
    HeadsDiffer();
    Prefixed(ExpenseOnlyHead, f, 23);
    Prefixed(ExpenseOnlyHead, f, 18);
    NotPrefixAt(r, IncomeOnlyHead, 23);
    NotPrefixAt(r, BothHead, 18);
  }

  lemma BothVariant(expense: Num, income: Num)
    requires !AtMostZero(expense) && !AtMostZero(income)
    ensures var r := Message(expense, income);
      StartsWith(r, BothHead) && !StartsWith(r, IncomeOnlyHead) && !StartsWith(r, ExpenseOnlyHead)
  {
    var a := BothHead + Format(expense);
    var b := a + IncomeTail;
    var r := b + Format(income);
    HeadsDiffer();
    Prefixed(BothHead, Format(expense), 18);
    Extended(a, IncomeTail, BothHead, 18);
    Extended(b, Format(income), BothHead, 18);
    NotPrefixAt(r, IncomeOnlyHead, 18);
    NotPrefixAt(r, ExpenseOnlyHead, 18);
  }

  lemma Prefixed(h: string, f: string, k: nat)
    requires k < |h|
    ensures StartsWith(h + f, h) && (h + f)[k] == h[k]
  {
    assert (h + f)[..|h|] == h;
  }

  lemma Extended(a: string, f: string, h: string, k: nat)
    requires StartsWith(a, h) && k < |h|
    ensures StartsWith(a + f, h) && (a + f)[k] == a[k]
  {
    assert (a + f)[..|h|] == a[..|h|];
  }

  lemma NotPrefixAt(r: string, h: string, k: nat)
    requires k < |h| && (k < |r| ==> r[k] != h[k])
    ensures !StartsWith(r, h)
  {
    if |h| <= |r| {
      assert r[..|h|][k] == r[k];
    }
  }

  /** No heading is a prefix of text that starts with another one. */
  lemma HeadsDiffer()
    ensures IncomeOnlyHead[0] == ExpenseOnlyHead[0] == BothHead[0] == 'T'
    ensures |IncomeOnlyHead| == 34 && |ExpenseOnlyHead| == 36 && |BothHead| == 37
    ensures IncomeOnlyHead[23] == 'm' && ExpenseOnlyHead[23] == 'n' && BothHead[18] == ' '
    ensures IncomeOnlyHead[18] == '\n' && ExpenseOnlyHead[18] == '\n'
  {
  }

  /** In the income-only message the figure after the heading reads back as the
      income total. */
  lemma IncomeOnlyReadsBack(expense: Num, income: Num)
    requires AtMostZero(expense) && income.Fin?
    ensures var r := Message(expense, income);
      StartsWith(r, IncomeOnlyHead) && ReadAmount(r[|IncomeOnlyHead|..]) == Some(income.n)
  {
    var r := Message(expense, income);
    assert r[|IncomeOnlyHead|..] == Format(income);
    assert r[..|IncomeOnlyHead|] == IncomeOnlyHead;
    FormatReadsBack(income);
  }

  /** In the expense-only message the figure after the heading reads back as the
      expense total. */
  lemma ExpenseOnlyReadsBack(expense: Num, income: Num)
    requires expense.Fin? && !AtMostZero(expense) && AtMostZero(income)
    ensures var r := Message(expense, income);
      StartsWith(r, ExpenseOnlyHead) && ReadAmount(r[|ExpenseOnlyHead|..]) == Some(expense.n)
  {
    var r := Message(expense, income);
    assert r[|ExpenseOnlyHead|..] == Format(expense);
    assert r[..|ExpenseOnlyHead|] == ExpenseOnlyHead;
    FormatReadsBack(expense);
  }

  /** In the two-line message the first figure reads back as the expense total
      and the second, after the income line's label, as the income total. */
  lemma BothReadBack(expense: Num, income: Num)
    requires expense.Fin? && income.Fin? && !AtMostZero(expense) && !AtMostZero(income)
    ensures var r := Message(expense, income);
      var k := |BothHead| + |Format(expense)|;
      && StartsWith(r, BothHead)
      && k + |IncomeTail| <= |r|
      && ReadAmount(r[|BothHead|..k]) == Some(expense.n)
      && r[k..k + |IncomeTail|] == IncomeTail
      && ReadAmount(r[k + |IncomeTail|..]) == Some(income.n)
  {
    var r := Message(expense, income);
    var f1, f2 := Format(expense), Format(income);
    Pieces(BothHead, f1, IncomeTail, f2);
    FormatReadsBack(expense);
    FormatReadsBack(income);
  }

  lemma Pieces(a: string, b: string, c: string, d: string)
    ensures var r := a + b + c + d; var k := |a| + |b|;
      && r[..|a|] == a && r[|a|..k] == b && r[k..k + |c|] == c && r[k + |c|..] == d
  {
  }
}
