/** Worked cases that run a message through the whole model: a fenced model
    reply for a coffee purchase, the replies that are refused, and the chat
    reply the webhook sends back. */
module Scenarios {
  import opened Wrappers
  import opened JsText
  import opened JsValues
  import Locale
  import Normalizer
  import Summary
  import Classify
  import Telegram

  /** The item the model extracts from "Beli kopi 25k", with amount `n`
      (25000 for that text). */
  function CoffeeItem(n: nat): Json {
    JObj(map[
      "description" := JStr("Beli kopi"),
      "amount" := JNum(n),
      "currency" := JStr("IDR"),
      "category" := JStr("Makanan & Minuman"),
      "type" := JStr("expense")])
  }

  /** The category table, reduced to the one category that matters here. */
  function Categories(): map<string, nat> {
    map["Makanan & Minuman" := 1]
  }

  /** 25000 is written "25.000". */
  lemma GroupsOfTwentyFiveThousand(n: nat)
    requires n == 25000
    ensures Locale.Group(n) == "25.000"
  {
    TwoDigitThousands(n, 2, 5);
    assert Locale.DigitChar(2) == '2' && Locale.DigitChar(5) == '5';
  }

  /** 50000 is written "50.000". */
  lemma GroupsOfFiftyThousand(n: nat)
    requires n == 50000
    ensures Locale.Group(n) == "50.000"
  {
    TwoDigitThousands(n, 5, 0);
    assert Locale.DigitChar(5) == '5' && Locale.DigitChar(0) == '0';
  }

  /** Ten to ninety-nine thousand, grouped. */
  lemma TwoDigitThousands(n: nat, a: nat, b: nat)
    requires 1 <= a < 10 && b < 10 && n == (a * 10 + b) * 1000
    ensures Locale.Group(n) == [Locale.DigitChar(a), Locale.DigitChar(b)] + ".000"
  {
    var k := a * 10 + b;
    Locale.WholeThousands(k, n);
    TwoDigits(k, a, b);
  }

  /** A two-digit number is its two digit characters. */
  lemma TwoDigits(k: nat, a: nat, b: nat)
    requires 1 <= a < 10 && b < 10 && k == a * 10 + b
    ensures Locale.Digits(k) == [Locale.DigitChar(a), Locale.DigitChar(b)]
  {
    assert k / 10 == a && k % 10 == b;
  }

  /** Expense 25000, income 0: the expense-only message. */
  lemma ExpenseOnlyMessage(n: nat)
    requires n == 25000
    ensures Summary.Message(Fin(n), Fin(0)) == Summary.ExpenseOnlyHead + "25.000"
  {
    GroupsOfTwentyFiveThousand(n);
    ExpenseOnlyWith(n, "25.000");
  }

  /** Expense 0, income 50000: the income-only message. */
  lemma IncomeOnlyMessage(n: nat)
    requires n == 50000
    ensures Summary.Message(Fin(0), Fin(n)) == Summary.IncomeOnlyHead + "50.000"
  {
    GroupsOfFiftyThousand(n);
  }

  /** Both positive: the two-line message, expense first. */
  lemma TwoLineMessage(e: nat, i: nat)
    requires e == 25000 && i == 50000
    ensures Summary.Message(Fin(e), Fin(i)) == Summary.BothHead + "25.000" + Summary.IncomeTail + "50.000"
  {
    GroupsOfTwentyFiveThousand(e);
    GroupsOfFiftyThousand(i);
    TwoLineWith(e, i, "25.000", "50.000");
  }

  lemma TwoLineWith(e: nat, i: nat, g: string, h: string)
    requires e > 0 && i > 0 && Locale.Group(e) == g && Locale.Group(i) == h
    ensures Summary.Message(Fin(e), Fin(i)) == Summary.BothHead + g + Summary.IncomeTail + h
  {
  }

  lemma ExpenseOnlyWith(n: nat, g: string)
    requires n > 0 && Locale.Group(n) == g
    ensures Summary.Message(Fin(n), Fin(0)) == Summary.ExpenseOnlyHead + g
  {
  }

  /** Both totals zero: the income-only message is chosen. */
  lemma ZeroTotalsMessage(zero: Num)
    requires zero == Fin(0)
    ensures Summary.Message(zero, zero) == Summary.IncomeOnlyHead + "0"
  {
    Locale.SmallNumbersUngrouped(0);
    assert Format(zero) == Locale.Digits(0) == "0";
  }

  /** The row stored for the coffee item for user 7. */
  function CoffeeRow(now: string, n: nat): Classify.Row {
    Classify.Row(7, JStr("Beli kopi"), JNum(n), JStr("IDR"), Some(1), Classify.Source, Take(now, 10), Some(JStr("expense")))
  }

  /** A fenced reply reaches the parser as the payload it wraps. */
  lemma CleanedFencedPayload(tag: string, w1: string, p: string, w2: string)
    requires tag == "" || tag == "json"
    requires AllSpace(w1) && AllSpace(w2) && Normalizer.Bracketed(p)
    ensures Classify.Cleaned(Normalizer.Fenced(tag, w1, p, w2)) == p
  {
    FencedTrimmed(tag, w1, p, w2);
    Normalizer.CleanOfFencedPayload(tag, w1, p, w2);
  }

  lemma FencedTrimmed(tag: string, w1: string, p: string, w2: string)
    ensures Trim(Normalizer.Fenced(tag, w1, p, w2)) == Normalizer.Fenced(tag, w1, p, w2)
  {
    var a := Normalizer.Fence + tag + w1 + p + w2;
    var r := a + Normalizer.Fence;
    assert r == Normalizer.Fenced(tag, w1, p, w2);
    assert a[0] == '`' by {
      assert a == Normalizer.Fence + (tag + w1 + p + w2);
    }
    assert r[0] == a[0] && r[|r| - 1] == '`';
    assert Trimmed(r);
  }

  lemma CoffeeGathered(now: string, n: nat)
    ensures Classify.Gather([CoffeeItem(n)], Some(7), Categories(), now) == Success([CoffeeRow(now, n)])
  {
    var it := CoffeeItem(n);
    assert [it][..0] == [];
    assert Classify.Admissible(it);
    assert Classify.CategoryId(Categories(), JStr("Makanan & Minuman")) == Some(1);
    var row := Classify.RowOf(it, 7, Categories(), now);
    assert row == CoffeeRow(now, n);
    var none: seq<Classify.Row> := [];
    assert none + [row] == [row];
    assert Classify.Step(none, it, Some(7), Categories(), now) == Success([row]);
  }

  lemma CoffeeTotals(now: string, n: nat)
    ensures Classify.KindTotal([CoffeeRow(now, n)], "expense") == Fin(n)
    ensures Classify.KindTotal([CoffeeRow(now, n)], "income") == Fin(0)
  {
    var rows := [CoffeeRow(now, n)];
    assert Classify.OfKind(rows[0].txType, "expense");
    assert !Classify.OfKind(rows[0].txType, "income");
    assert Classify.Select(rows, "expense") == rows;
    assert Classify.Amount(rows[0]) == Fin(n);
    assert Classify.Amounts(rows) == [Fin(n)];
    assert [Fin(n)][..0] == [];
    assert Classify.Total([Fin(n)]) == Add(Fin(0), Fin(n)) == Fin(n);
  }

  /** "Beli kopi 25k": the model answers with the coffee item inside a json
      fence; the endpoint stores one expense row with category id 1 and today's
      date, and reports "Pengeluaran Rp 25.000". */
  lemma CoffeePurchase(tag: string, w1: string, p: string, w2: string,
                       parse: string -> Result<Json, string>, now: string, n: nat)
    requires tag == "" || tag == "json"
    requires AllSpace(w1) && AllSpace(w2) && Normalizer.Bracketed(p)
    requires parse(p) == Success(CoffeeItem(n))
    requires n == 25000
    ensures var out := Classify.Handle(Normalizer.Fenced(tag, w1, p, w2), parse, Some(7), Categories(), now, None);
      && out.status == 200
      && out.stored == [CoffeeRow(now, n)]
      && out.body == Classify.Accepted(CoffeeItem(n), Summary.ExpenseOnlyHead + "25.000")
  {
    var reply := Normalizer.Fenced(tag, w1, p, w2);
    CleanedFencedPayload(tag, w1, p, w2);
    assert parse(Classify.Cleaned(reply)) == Success(CoffeeItem(n));
    assert Classify.ToItems(CoffeeItem(n)) == [CoffeeItem(n)];
    CoffeeGathered(now, n);
    CoffeeTotals(now, n);
    ExpenseOnlyMessage(n);
    var message := Summary.Message(Fin(n), Fin(0));
    assert Classify.Handle(reply, parse, Some(7), Categories(), now, None) ==
      Classify.Reply(200, Classify.Accepted(CoffeeItem(n), message), [CoffeeRow(now, n)]);
  }

  /** A single object without a currency fails the guard: 400, nothing stored. */
  lemma MissingCurrencyRefused(reply: string, parse: string -> Result<Json, string>,
                               it: Json, user: Option<nat>, categories: map<string, nat>, now: string)
    requires parse(Classify.Cleaned(reply)) == Success(it)
    requires it.JObj? && "currency" !in it.fields
    ensures Classify.Handle(reply, parse, user, categories, now, None) ==
              Classify.Reply(400, Classify.Refused(Classify.InvalidItemFormat), [])
  {
    MissingCurrencyGatherFails(it, user, categories, now);
    GatherFailureRefused(reply, parse, it, user, categories, now);
  }

  lemma MissingCurrencyGatherFails(it: Json, user: Option<nat>, categories: map<string, nat>, now: string)
    requires it.JObj? && "currency" !in it.fields
    ensures Classify.Gather(Classify.ToItems(it), user, categories, now) == Failure(Classify.InvalidItemFormat)
  {
    assert Classify.ToItems(it) == [it];
    assert !Classify.Admissible(it);
    assert [it][..0] == [];
  }

  /** An empty array is accepted: nothing is stored and the message reports an
      income of 0. */
  lemma EmptyListAccepted(reply: string, parse: string -> Result<Json, string>, user: Option<nat>,
                          categories: map<string, nat>, now: string)
    requires parse(Classify.Cleaned(reply)) == Success(JArr([]))
    ensures Classify.Handle(reply, parse, user, categories, now, None) ==
              Classify.Reply(200, Classify.Accepted(JArr([]), Summary.IncomeOnlyHead + "0"), [])
  {
    EmptyListGathered(user, categories, now);
    ZeroTotalsMessage(Fin(0));
    GatherSuccessAccepted(reply, parse, JArr([]), user, categories, now);
  }

  lemma EmptyListGathered(user: Option<nat>, categories: map<string, nat>, now: string)
    ensures var g := Classify.Gather(Classify.ToItems(JArr([])), user, categories, now);
      g == Success([]) && Classify.KindTotal(g.value, "expense") == Fin(0) && Classify.KindTotal(g.value, "income") == Fin(0)
  {
    var rows: seq<Classify.Row> := [];
    assert !Classify.Includes(rows, "expense") && !Classify.Includes(rows, "income");
  }

  lemma GatherFailureRefused(reply: string, parse: string -> Result<Json, string>, parsed: Json,
                             user: Option<nat>, categories: map<string, nat>, now: string)
    requires parse(Classify.Cleaned(reply)) == Success(parsed)
    requires Classify.Gather(Classify.ToItems(parsed), user, categories, now).Failure?
    ensures Classify.Handle(reply, parse, user, categories, now, None) ==
              Classify.Reply(400, Classify.Refused(Classify.Gather(Classify.ToItems(parsed), user, categories, now).error), [])
  {
  }

  lemma GatherSuccessAccepted(reply: string, parse: string -> Result<Json, string>, parsed: Json,
                              user: Option<nat>, categories: map<string, nat>, now: string)
    requires parse(Classify.Cleaned(reply)) == Success(parsed)
    requires Classify.Gather(Classify.ToItems(parsed), user, categories, now).Success?
    ensures var rows := Classify.Gather(Classify.ToItems(parsed), user, categories, now).value;
      Classify.Handle(reply, parse, user, categories, now, None) ==
        Classify.Reply(200, Classify.Accepted(parsed,
          Summary.Message(Classify.KindTotal(rows, "expense"), Classify.KindTotal(rows, "income"))), rows)
  {
  }

  /** The chat update carrying text `t` from the sender with id `n`. */
  function TextUpdate(t: string, n: nat): Json {
    JObj(map["message" := JObj(map["text" := JStr(t), "from" := JObj(map["id" := JNum(n)])])])
  }

  lemma TextUpdateFields(t: string, n: nat)
    ensures Telegram.MessageText(TextUpdate(t, n)) == Some(JStr(t))
    ensures Telegram.SenderId(TextUpdate(t, n)) == Some(Locale.Digits(n))
  {
  }

  /** Ordinary text is forwarded as it is, with the sender's decimal id. */
  lemma TextUpdateForwarded(t: string, n: nat)
    requires t != [] && Trim(t) != Telegram.Start
    ensures Telegram.Decide(TextUpdate(t, n)) == Telegram.Forward(t, Locale.Digits(n))
  {
    TextUpdateFields(t, n);
  }

  /** "/start" surrounded by white space still greets. */
  lemma PaddedStartGreets(w1: string, w2: string, n: nat)
    requires AllSpace(w1) && AllSpace(w2)
    ensures Telegram.Decide(TextUpdate(w1 + Telegram.Start + w2, n)) == Telegram.Welcome(Locale.Digits(n))
  {
    assert Trimmed(Telegram.Start);
    TrimPadded(w1, Telegram.Start, w2);
    StartGreets(w1 + Telegram.Start + w2, n);
  }

  lemma StartGreets(t: string, n: nat)
    requires Trim(t) == Telegram.Start
    ensures Telegram.Decide(TextUpdate(t, n)) == Telegram.Welcome(Locale.Digits(n))
  {
    assert t != [];
    TextUpdateFields(t, n);
  }

  /** A refusal from classify is relayed to the sender with its error. */
  lemma ChatRelaysRefusal(t: string, n: nat, classify: (string, string) -> Telegram.Call<Json>, e: string)
    requires t != [] && Trim(t) != Telegram.Start
    requires classify(t, Locale.Digits(n)) == Telegram.Returned(Classify.AnswerJson(Classify.Refused(e)))
    ensures var id := Locale.Digits(n);
      Telegram.Handle(Success(TextUpdate(t, n)), classify, None) ==
        Telegram.Outcome(200, true, None,
          [Telegram.Classify(t, id), Telegram.SendMessage(id, Telegram.FailurePrefix + e)])
  {
    TextUpdateForwarded(t, n);
    RefusalReply(e);
    RepliedToSender(TextUpdate(t, n), classify, Classify.AnswerJson(Classify.Refused(e)), Telegram.FailurePrefix + e);
  }

  lemma RefusalReply(e: string)
    ensures Telegram.ReplyText(Classify.AnswerJson(Classify.Refused(e))) == Success(Telegram.FailurePrefix + e)
  {
  }

  /** A forwarded text whose answer yields a reply: classify, then the reply, then `ok`. */
  lemma RepliedToSender(update: Json, classify: (string, string) -> Telegram.Call<Json>, answer: Json, reply: string)
    requires Telegram.Decide(update).Forward?
    requires var a := Telegram.Decide(update); classify(a.text, a.chatId) == Telegram.Returned(answer)
    requires Telegram.ReplyText(answer) == Success(reply)
    ensures var a := Telegram.Decide(update);
      Telegram.Handle(Success(update), classify, None) ==
        Telegram.Outcome(200, true, None, [Telegram.Classify(a.text, a.chatId), Telegram.SendMessage(a.chatId, reply)])
  {
  }

  /** The coffee purchase, relayed: the sender is told the message and the
      item's details, with the amount grouped. */
  lemma ChatRelaysCoffee(t: string, sender: nat, classify: (string, string) -> Telegram.Call<Json>, m: string, n: nat)
    requires t != [] && Trim(t) != Telegram.Start && n == 25000
    requires classify(t, Locale.Digits(sender)) == Telegram.Returned(Classify.AnswerJson(Classify.Accepted(CoffeeItem(n), m)))
    ensures var id := Locale.Digits(sender);
      var reply := Telegram.SuccessMark + (m + Telegram.DetailHead + "Beli kopi" + Telegram.AmountHead + "25.000"
        + Telegram.CategoryHead + "Makanan & Minuman");
      Telegram.Handle(Success(TextUpdate(t, sender)), classify, None) ==
        Telegram.Outcome(200, true, None, [Telegram.Classify(t, id), Telegram.SendMessage(id, reply)])
  {
    TextUpdateForwarded(t, sender);
    CoffeeReply(m, n);
    var reply := Telegram.SuccessMark + (m + Telegram.DetailHead + "Beli kopi" + Telegram.AmountHead + "25.000"
      + Telegram.CategoryHead + "Makanan & Minuman");
    RepliedToSender(TextUpdate(t, sender), classify, Classify.AnswerJson(Classify.Accepted(CoffeeItem(n), m)), reply);
  }

  lemma CoffeeReply(m: string, n: nat)
    requires n == 25000
    ensures Telegram.ReplyText(Classify.AnswerJson(Classify.Accepted(CoffeeItem(n), m))) ==
      Success(Telegram.SuccessMark + (m + Telegram.DetailHead + "Beli kopi" + Telegram.AmountHead + "25.000"
        + Telegram.CategoryHead + "Makanan & Minuman"))
  {
    var answer := Classify.AnswerJson(Classify.Accepted(CoffeeItem(n), m));
    var data := CoffeeItem(n);
    assert Get(answer, "data") == Some(data);
    assert TextOf(Get(answer, "message")) == m;
    assert TextOf(Get(data, "description")) == "Beli kopi";
    assert TextOf(Get(data, "category")) == "Makanan & Minuman";
    Telegram.ReplyAmountReadsBack(answer, n);
    GroupsOfTwentyFiveThousand(n);
  }
}
