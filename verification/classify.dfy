/** The classify endpoint after the language model has answered: parse the
    cleaned reply, treat it as a list of items, validate every item, build one
    transaction row per item, store the rows and report the totals. */
module Classify {
  import opened Wrappers
  import opened JsText
  import opened JsValues
  import Normalizer
  import Summary

  const InvalidItemFormat := "Invalid item format"
  /** V8's message for reading `description` from a null item. */
  const NullItemRead := "Cannot read properties of null (reading 'description')"
  /** V8's message for reading `id` from the missing user row. */
  const NullUserRead := "Cannot read properties of null (reading 'id')"
  const Source := "telegram"

  /** A transaction row as pushed for insertion. The item's values are carried
      over as they were parsed; `type` may be absent. */
  datatype Row = Row(
    userId: nat,
    description: Json,
    amount: Json,
    currency: Json,
    categoryId: Option<nat>,
    source: string,
    txDate: string,
    txType: Option<Json>)

  /** The response of the endpoint together with the rows it stored. */
  datatype Reply = Reply(status: nat, body: Body, stored: seq<Row>)

  datatype Body = Accepted(data: Json, message: string) | Refused(error: string)

  /** A parsed array is the item list; any other value is a list of one. */
  function ToItems(parsed: Json): (items: seq<Json>)
    ensures parsed.JArr? <==> JArr(items) == parsed
    ensures !parsed.JArr? ==> items == [parsed]
  {
    if parsed.JArr? then parsed.elems else [parsed]
  }

  /** The validation guard: a truthy description, an amount that is neither
      null nor undefined, a truthy currency and a truthy category. The type is
      not checked. */
  predicate Admissible(it: Json): (ok: bool)
    ensures ok ==> it.JObj? && "description" in it.fields && "amount" in it.fields
                   && "currency" in it.fields && "category" in it.fields
    ensures ok ==> it.fields["amount"] != JNull
    ensures ok ==> it.fields["description"] !in {JNull, JBool(false), JNum(0), JStr("")}
    ensures ok ==> it.fields["currency"] !in {JNull, JBool(false), JNum(0), JStr("")}
    ensures ok ==> it.fields["category"] !in {JNull, JBool(false), JNum(0), JStr("")}
    ensures (&& it.JObj? && "description" in it.fields && "amount" in it.fields
             && "currency" in it.fields && "category" in it.fields
             && it.fields["amount"] != JNull
             && Truthy(Some(it.fields["description"])) && Truthy(Some(it.fields["currency"]))
             && Truthy(Some(it.fields["category"])))
            ==> ok
  {
    && it != JNull
    && Truthy(Get(it, "description"))
    && !Nullish(Get(it, "amount"))
    && Truthy(Get(it, "currency"))
    && Truthy(Get(it, "category"))
  }

  /** The amount is tested only against null and undefined: unlike the other
      three fields, an amount of 0, false or "" passes the guard. Other keys,
      such as "type", play no part. */
  lemma AmountOnlyNonNull(it: Json)
    requires it.JObj? && "description" in it.fields && "amount" in it.fields
             && "currency" in it.fields && "category" in it.fields
    requires Truthy(Some(it.fields["description"])) && Truthy(Some(it.fields["currency"]))
             && Truthy(Some(it.fields["category"]))
    ensures Admissible(it) <==> it.fields["amount"] != JNull
  {
  }

  /** Why an item that fails the guard is refused: a null item makes the guard
      itself throw. */
  function Rejection(it: Json): string {
    if it == JNull then NullItemRead else InvalidItemFormat
  }

  /** The category id for a category value: the id stored under its text, if any. */
  function CategoryId(categories: map<string, nat>, category: Json): (id: Option<nat>)
    ensures id.Some? <==> Text(category) in categories
    ensures id.Some? ==> id.value == categories[Text(category)]
  {
    var name := Text(category);
    if name in categories then Some(categories[name]) else None
  }

  /** The row pushed for an admissible item; `now` is the ISO timestamp whose
      first ten characters are the date. */
  function RowOf(it: Json, userId: nat, categories: map<string, nat>, now: string): (row: Row)
    requires Admissible(it)
    ensures row.description == it.fields["description"] && row.amount == it.fields["amount"]
    ensures row.currency == it.fields["currency"]
    ensures row.categoryId == CategoryId(categories, it.fields["category"])
    ensures row.source == Source && row.txDate == Take(now, 10)
    ensures row.txType == Get(it, "type") && row.userId == userId
  {
    Row(userId, Get(it, "description").value, Get(it, "amount").value, Get(it, "currency").value,
        CategoryId(categories, Get(it, "category").value), Source, Take(now, 10), Get(it, "type"))
  }

  /** One pass of the loop over the items: the guard, then the row, whose
      construction reads the user row's id. */
  function Step(acc: seq<Row>, it: Json, user: Option<nat>, categories: map<string, nat>, now: string): Result<seq<Row>, string> {
    if !Admissible(it) then Failure(Rejection(it))
    else if user.None? then Failure(NullUserRead)
    else Success(acc + [RowOf(it, user.value, categories, now)])
  }

  /** The loop over the items, in order; the first failing pass ends it. */
  function Gather(items: seq<Json>, user: Option<nat>, categories: map<string, nat>, now: string): (r: Result<seq<Row>, string>)
    ensures r.Success? <==> AllAdmissible(items) && (items == [] || user.Some?)
    ensures r.Success? ==> |r.value| == |items|
    ensures r.Success? ==> forall i :: 0 <= i < |items| ==>
              user.Some? && Admissible(items[i]) && r.value[i] == RowOf(items[i], user.value, categories, now)
    ensures r.Failure? ==> r.error == Refusal(items, user)
  {
    if items == [] then Success([])
    else
      var prev := Gather(items[..|items| - 1], user, categories, now);
      var r := if prev.Failure? then prev else Step(prev.value, items[|items| - 1], user, categories, now);
      GatherStep(items, user, categories, now, prev, r);
      r
  }

  lemma GatherStep(items: seq<Json>, user: Option<nat>, categories: map<string, nat>, now: string,
                   prev: Result<seq<Row>, string>, r: Result<seq<Row>, string>)
    requires items != []
    requires var init := items[..|items| - 1];
      && (prev.Success? <==> AllAdmissible(init) && (init == [] || user.Some?))
      && (prev.Success? ==> |prev.value| == |init|)
      && (prev.Success? ==> forall i :: 0 <= i < |init| ==>
            user.Some? && Admissible(init[i]) && prev.value[i] == RowOf(init[i], user.value, categories, now))
      && (prev.Failure? ==> prev.error == Refusal(init, user))
    requires r == if prev.Failure? then prev else Step(prev.value, items[|items| - 1], user, categories, now)
    ensures r.Success? <==> AllAdmissible(items) && user.Some?
    ensures r.Success? ==> |r.value| == |items|
    ensures r.Success? ==> forall i :: 0 <= i < |items| ==>
              user.Some? && Admissible(items[i]) && r.value[i] == RowOf(items[i], user.value, categories, now)
    ensures r.Failure? ==> r.error == Refusal(items, user)
  {
    var init := items[..|items| - 1];
    var last := items[|items| - 1];
    AdmissibleSnoc(init, last);
    assert items == init + [last];
    if prev.Failure? {
      RefusalSnoc(init, last, user);
    } else if !Admissible(last) {
      FirstRefusedUnique(items, |init|);
    }
  }

  /** Every item passes the guard. */
  predicate AllAdmissible(items: seq<Json>) {
    forall i :: 0 <= i < |items| ==> Admissible(items[i])
  }

  /** The position of the first item that fails the guard. */
  function FirstRefused(items: seq<Json>): (k: Option<nat>)
    ensures k.None? <==> AllAdmissible(items)
    ensures k.Some? ==>
              && k.value < |items| && !Admissible(items[k.value])
              && forall j :: 0 <= j < k.value ==> Admissible(items[j])
  {
    FirstRefusedFrom(items, 0)
  }

  function FirstRefusedFrom(items: seq<Json>, from: nat): (k: Option<nat>)
    requires from <= |items|
    ensures k.None? <==> forall j :: from <= j < |items| ==> Admissible(items[j])
    ensures k.Some? ==>
              && from <= k.value < |items| && !Admissible(items[k.value])
              && forall j :: from <= j < k.value ==> Admissible(items[j])
    decreases |items| - from
  {
    if from == |items| then None
    else if !Admissible(items[from]) then Some(from)
    else FirstRefusedFrom(items, from + 1)
  }

  /** The error a failing loop reports, stated without the loop: without a user
      row the first item decides (its guard, else the user read); otherwise the
      first item that fails the guard does. */
  function Refusal(items: seq<Json>, user: Option<nat>): string {
    if user.None? && items != [] && Admissible(items[0]) then NullUserRead
    else match FirstRefused(items)
      case Some(k) => Rejection(items[k])
      case None => ""
  }

  lemma AdmissibleSnoc(init: seq<Json>, last: Json)
    ensures AllAdmissible(init + [last]) <==> AllAdmissible(init) && Admissible(last)
  {
    var s := init + [last];
    assert forall i :: 0 <= i < |init| ==> s[i] == init[i];
    assert s[|init|] == last;
  }

  lemma RefusalSnoc(init: seq<Json>, last: Json, user: Option<nat>)
    requires !AllAdmissible(init) || (init != [] && user.None?)
    ensures Refusal(init + [last], user) == Refusal(init, user)
  {
    var s := init + [last];
    assert s[0] == init[0];
    var k := FirstRefused(init);
    if k.Some? {
      assert s[k.value] == init[k.value];
      FirstRefusedUnique(s, k.value);
    }
  }

  lemma FirstRefusedUnique(items: seq<Json>, k: nat)
    requires k < |items| && !Admissible(items[k]) && forall j :: 0 <= j < k ==> Admissible(items[j])
    ensures FirstRefused(items) == Some(k)
  {
  }

  /** `Number(r.amount)`. */
  function Amount(row: Row): Num {
    ToNumber(Some(row.amount))
  }

  /** `r.type === kind`. */
  predicate OfKind(t: Option<Json>, kind: string) {
    t == Some(JStr(kind))
  }

  /** `rows.map(r => r.type).includes(kind)`. */
  predicate Includes(rows: seq<Row>, kind: string) {
    exists i :: 0 <= i < |rows| && OfKind(rows[i].txType, kind)
  }

  /** `rows.filter(r => r.type === kind)`. */
  function Select(rows: seq<Row>, kind: string): (sel: seq<Row>)
    ensures |sel| <= |rows|
    ensures forall j :: 0 <= j < |sel| ==> OfKind(sel[j].txType, kind) && sel[j] in rows
    ensures forall i :: 0 <= i < |rows| && OfKind(rows[i].txType, kind) ==> rows[i] in sel
    ensures sel == [] <==> !Includes(rows, kind)
  {
    if rows == [] then []
    else
      var last := rows[|rows| - 1];
      var init := Select(rows[..|rows| - 1], kind);
      assert forall i :: 0 <= i < |rows| - 1 ==> rows[..|rows| - 1][i] == rows[i];
      if OfKind(last.txType, kind) then init + [last] else init
  }

  /** The amounts of the rows, as numbers. */
  function Amounts(rows: seq<Row>): (xs: seq<Num>)
    ensures |xs| == |rows| && forall i :: 0 <= i < |rows| ==> xs[i] == Amount(rows[i])
  {
    seq(|rows|, i requires 0 <= i < |rows| => Amount(rows[i]))
  }

  /** `.reduce((sum, x) => sum + x, 0)`: a left fold. */
  function Total(xs: seq<Num>): Num {
    if xs == [] then Fin(0) else Add(Total(xs[..|xs| - 1]), xs[|xs| - 1])
  }

  /** A total as the handler computes it: zero unless some row has the kind, and
      then the sum of the amounts of the rows of that kind. */
  function KindTotal(rows: seq<Row>, kind: string): (t: Num)
    ensures t == Total(Amounts(Select(rows, kind)))
    ensures t == RightTotal(Masked(rows, kind))
  {
    SelectedTotal(rows, kind);
    FoldsAgree(Masked(rows, kind));
    if Includes(rows, kind) then Total(Amounts(Select(rows, kind)))
    else
      assert Amounts(Select(rows, kind)) == [];
      Fin(0)
  }

  /** The `includes` test in front of each total changes nothing: an empty
      selection already sums to zero. */
  lemma IncludesGuardRedundant(rows: seq<Row>, kind: string)
    ensures KindTotal(rows, kind) == Total(Amounts(Select(rows, kind)))
  {
    if !Includes(rows, kind) {
      assert Amounts(Select(rows, kind)) == [];
    }
  }

  /** A sum is a number exactly when every summand is one. */
  lemma {:induction false} TotalFinite(xs: seq<Num>)
    ensures Total(xs).Fin? <==> forall i :: 0 <= i < |xs| ==> xs[i].Fin?
  {
    if xs != [] {
      var init := xs[..|xs| - 1];
      TotalFinite(init);
      assert forall i :: 0 <= i < |init| ==> init[i] == xs[i];
    }
  }

  /** The right fold, a reference order of summation. */
  function RightTotal(xs: seq<Num>): Num {
    if xs == [] then Fin(0) else Add(xs[0], RightTotal(xs[1..]))
  }

  lemma {:induction false} RightTotalSnoc(xs: seq<Num>, x: Num)
    ensures RightTotal(xs + [x]) == Add(RightTotal(xs), x)
  {
    if xs != [] {
      assert (xs + [x])[1..] == xs[1..] + [x];
      RightTotalSnoc(xs[1..], x);
    }
  }

  /** Summing from the left, as `reduce` does, and from the right agree; NaN
      absorbs in either order. */
  lemma {:induction false} FoldsAgree(xs: seq<Num>)
    ensures Total(xs) == RightTotal(xs)
  {
    if xs != [] {
      var init := xs[..|xs| - 1];
      FoldsAgree(init);
      assert xs == init + [xs[|xs| - 1]];
      RightTotalSnoc(init, xs[|xs| - 1]);
    }
  }

  /** Each row's amount where the row has the kind, zero elsewhere. */
  function Masked(rows: seq<Row>, kind: string): (xs: seq<Num>)
    ensures |xs| == |rows|
  {
    seq(|rows|, i requires 0 <= i < |rows| => if OfKind(rows[i].txType, kind) then Amount(rows[i]) else Fin(0))
  }

  /** Filtering then summing equals summing with the other rows counted as zero. */
  lemma {:induction false} SelectedTotal(rows: seq<Row>, kind: string)
    ensures Total(Amounts(Select(rows, kind))) == Total(Masked(rows, kind))
  {
    if rows != [] {
      var init, last := rows[..|rows| - 1], rows[|rows| - 1];
      SelectedTotal(init, kind);
      var sel := Select(init, kind);
      MaskedSnoc(rows, kind);
      if OfKind(last.txType, kind) {
        AmountsSnoc(sel, last);
        TotalSnoc(Amounts(sel), Amount(last));
        TotalSnoc(Masked(init, kind), Amount(last));
      } else {
        TotalSnoc(Masked(init, kind), Fin(0));
      }
    }
  }

  lemma MaskedSnoc(rows: seq<Row>, kind: string)
    requires rows != []
    ensures var last := rows[|rows| - 1];
      Masked(rows, kind) == Masked(rows[..|rows| - 1], kind) + [if OfKind(last.txType, kind) then Amount(last) else Fin(0)]
  {
    var init, last := rows[..|rows| - 1], rows[|rows| - 1];
    var whole := Masked(rows, kind);
    var split := Masked(init, kind) + [if OfKind(last.txType, kind) then Amount(last) else Fin(0)];
    forall i | 0 <= i < |rows|
      ensures whole[i] == split[i]
    {
      if i < |init| {
        assert init[i] == rows[i];
      }
    }
  }

  lemma AmountsSnoc(rows: seq<Row>, row: Row)
    ensures Amounts(rows + [row]) == Amounts(rows) + [Amount(row)]
  {
  }

  lemma TotalSnoc(xs: seq<Num>, x: Num)
    ensures Total(xs + [x]) == Add(Total(xs), x)
  {
    assert (xs + [x])[..|xs|] == xs;
  }

  /** A total is NaN exactly when some row of its kind has an amount that does
      not convert to a number. */
  lemma KindTotalFinite(rows: seq<Row>, kind: string)
    ensures KindTotal(rows, kind).Fin? <==> forall i :: 0 <= i < |rows| ==> Masked(rows, kind)[i].Fin?
  {
    IncludesGuardRedundant(rows, kind);
    SelectedTotal(rows, kind);
    TotalFinite(Masked(rows, kind));
  }

  /** What each item contributes to the total of a kind, read off the items. */
  function Contributions(items: seq<Json>, kind: string): (xs: seq<Num>)
    requires AllAdmissible(items)
    ensures |xs| == |items|
  {
    seq(|items|, i requires 0 <= i < |items| && AllAdmissible(items) =>
      if OfKind(Get(items[i], "type"), kind) then ToNumber(Get(items[i], "amount")) else Fin(0))
  }

  /** A reference total over the parsed items, summed from the right. */
  function ItemsTotal(items: seq<Json>, kind: string): Num
    requires AllAdmissible(items)
  {
    RightTotal(Contributions(items, kind))
  }

  /** The handler's totals over the built rows equal the reference totals over
      the items they were built from. */
  lemma RowTotalsMatchItems(items: seq<Json>, rows: seq<Row>, userId: nat,
                            categories: map<string, nat>, now: string, kind: string)
    requires AllAdmissible(items) && |rows| == |items|
    requires forall i :: 0 <= i < |items| ==> rows[i] == RowOf(items[i], userId, categories, now)
    ensures KindTotal(rows, kind) == ItemsTotal(items, kind)
  {
    IncludesGuardRedundant(rows, kind);
    SelectedTotal(rows, kind);
    MaskedContributions(items, rows, userId, categories, now, kind);
    FoldsAgree(Contributions(items, kind));
  }

  lemma MaskedContributions(items: seq<Json>, rows: seq<Row>, userId: nat,
                            categories: map<string, nat>, now: string, kind: string)
    requires AllAdmissible(items) && |rows| == |items|
    requires forall i :: 0 <= i < |items| ==> rows[i] == RowOf(items[i], userId, categories, now)
    ensures Masked(rows, kind) == Contributions(items, kind)
  {
    forall i | 0 <= i < |items|
      ensures Masked(rows, kind)[i] == Contributions(items, kind)[i]
    {
      AmountOfRow(items[i], userId, categories, now);
    }
  }

  lemma AmountOfRow(it: Json, userId: nat, categories: map<string, nat>, now: string)
    requires Admissible(it)
    ensures var row := RowOf(it, userId, categories, now);
      Amount(row) == ToNumber(Get(it, "amount")) && row.txType == Get(it, "type")
  {
  }

  /** The text handed to `JSON.parse`: the model's reply, trimmed and cleaned. */
  function Cleaned(reply: string): (r: string)
    ensures Infix(r, reply) && |r| <= |reply|
    ensures Normalizer.Bracketed(Trim(reply)) ==> r == Trim(reply)
  {
    var t := Trim(reply);
    TrimInfix(reply);
    InfixTransitive(Normalizer.Clean(t), t, reply);
    assert Normalizer.Bracketed(t) ==> Normalizer.Clean(t) == t by {
      if Normalizer.Bracketed(t) {
        Normalizer.BracketedKept(t);
      }
    }
    Normalizer.Clean(t)
  }

  /** The JSON body of the reply as a caller parses it: `ok`, the parsed value
      and the message on success, `ok` and the error otherwise. */
  function AnswerJson(body: Body): (j: Json)
    ensures j.JObj? && "ok" in j.fields
    ensures Truthy(Get(j, "ok")) <==> body.Accepted?
    ensures body.Accepted? ==> Get(j, "data") == Some(body.data) && Get(j, "message") == Some(JStr(body.message))
    ensures body.Refused? ==> Get(j, "error") == Some(JStr(body.error))
  {
    match body
    case Accepted(data, message) => JObj(map["ok" := JBool(true), "data" := data, "message" := JStr(message)])
    case Refused(error) => JObj(map["ok" := JBool(false), "error" := JStr(error)])
  }

  /** The endpoint after the model call. `parse` stands for `JSON.parse`,
      `user` for the upserted user row's id, `categories` for the category
      table, `now` for the current ISO timestamp and `insertError` for the
      database's answer to the insert. Every thrown error becomes a 400 reply
      carrying its message. */
  function Handle(reply: string, parse: string -> Result<Json, string>, user: Option<nat>,
                  categories: map<string, nat>, now: string, insertError: Option<string>): (out: Reply)
    ensures out.status == 200 || out.status == 400
    ensures out.status == 200 <==> out.body.Accepted?
    ensures out.body.Refused? ==> out.stored == []
  {
    match parse(Cleaned(reply))
    case Failure(e) => Reply(400, Refused(e), [])
    case Success(parsed) =>
      match Gather(ToItems(parsed), user, categories, now)
      case Failure(e) => Reply(400, Refused(e), [])
      case Success(rows) =>
        if insertError.Some? then Reply(400, Refused(insertError.value), [])
        else
          var message := Summary.Message(KindTotal(rows, "expense"), KindTotal(rows, "income"));
          Reply(200, Accepted(parsed, message), rows)
  }

  /** The reply is accepted exactly when the cleaned text parses, every item
      passes the guard, a user row exists (or there are no items) and the insert
      succeeds. */
  lemma HandleAcceptsIff(reply: string, parse: string -> Result<Json, string>, user: Option<nat>,
                         categories: map<string, nat>, now: string, insertError: Option<string>)
    ensures Handle(reply, parse, user, categories, now, insertError).body.Accepted? <==>
              && parse(Cleaned(reply)).Success?
              && AllAdmissible(ToItems(parse(Cleaned(reply)).value))
              && (ToItems(parse(Cleaned(reply)).value) == [] || user.Some?)
              && insertError.None?
  {
  }

  /** An accepted reply echoes the parsed value, stores one row per item in
      order, and reports the reference totals of the items. */
  lemma HandleAccepted(reply: string, parse: string -> Result<Json, string>, user: Option<nat>,
                       categories: map<string, nat>, now: string, insertError: Option<string>)
    requires Handle(reply, parse, user, categories, now, insertError).body.Accepted?
    ensures var out := Handle(reply, parse, user, categories, now, insertError);
      var parsed := parse(Cleaned(reply)).value;
      var items := ToItems(parsed);
      && AllAdmissible(items)
      && out.body.data == parsed
      && |out.stored| == |items|
      && (forall i :: 0 <= i < |items| ==>
            user.Some? && out.stored[i] == RowOf(items[i], user.value, categories, now))
      && out.body.message == Summary.Message(ItemsTotal(items, "expense"), ItemsTotal(items, "income"))
  {
    AcceptedReply(reply, parse, user, categories, now, insertError);
    var items := ToItems(parse(Cleaned(reply)).value);
    var rows := Gather(items, user, categories, now).value;
    var userId := if user.Some? then user.value else 0;
    RowTotalsMatchItems(items, rows, userId, categories, now, "expense");
    RowTotalsMatchItems(items, rows, userId, categories, now, "income");
  }

  /** The shape of an accepted reply: the parsed value, the message over the
      rows' totals, and the rows. */
  lemma AcceptedReply(reply: string, parse: string -> Result<Json, string>, user: Option<nat>,
                      categories: map<string, nat>, now: string, insertError: Option<string>)
    requires Handle(reply, parse, user, categories, now, insertError).body.Accepted?
    ensures parse(Cleaned(reply)).Success?
    ensures var parsed := parse(Cleaned(reply)).value;
      var g := Gather(ToItems(parsed), user, categories, now);
      && g.Success?
      && Handle(reply, parse, user, categories, now, insertError) ==
           Reply(200, Accepted(parsed, Summary.Message(KindTotal(g.value, "expense"), KindTotal(g.value, "income"))), g.value)
  {
  }

  /** Text that does not parse is refused with the parser's message. */
  lemma ParseFailureRefused(reply: string, parse: string -> Result<Json, string>, user: Option<nat>,
                            categories: map<string, nat>, now: string, insertError: Option<string>)
    requires parse(Cleaned(reply)).Failure?
    ensures Handle(reply, parse, user, categories, now, insertError) ==
              Reply(400, Refused(parse(Cleaned(reply)).error), [])
  {
  }

  /** When the loop over the items fails, the reply is refused with the first
      failing item's rejection, or with the missing user row's error, and
      nothing is stored. */
  lemma ItemFailureRefused(reply: string, parse: string -> Result<Json, string>, user: Option<nat>,
                           categories: map<string, nat>, now: string, insertError: Option<string>)
    requires parse(Cleaned(reply)).Success?
    requires var items := ToItems(parse(Cleaned(reply)).value);
      !(AllAdmissible(items) && (items == [] || user.Some?))
    ensures Handle(reply, parse, user, categories, now, insertError) ==
              Reply(400, Refused(Refusal(ToItems(parse(Cleaned(reply)).value), user)), [])
  {
  }

  /** A failed insert is refused with the database's message. */
  lemma InsertFailureRefused(reply: string, parse: string -> Result<Json, string>, user: Option<nat>,
                             categories: map<string, nat>, now: string, insertError: Option<string>)
    requires parse(Cleaned(reply)).Success?
    requires var items := ToItems(parse(Cleaned(reply)).value);
      AllAdmissible(items) && (items == [] || user.Some?)
    requires insertError.Some?
    ensures Handle(reply, parse, user, categories, now, insertError) == Reply(400, Refused(insertError.value), [])
  {
  }
}
