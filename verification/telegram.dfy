/** The Telegram webhook: decide what an update asks for, forward ordinary text
    to the classify endpoint, turn its answer into a chat reply, and always
    acknowledge with status 200. */
module Telegram {
  import opened Wrappers
  import opened JsText
  import opened JsValues
  import Locale
  import Summary

  const Start := "/start"
  const WelcomeText :=
    "Halo! Saya adalah bot pengelola keuangan Anda. Kirimkan deskripsi singkat tentang transaksi Anda, "
    + "dan saya akan mencatatnya untuk Anda. Misalnya: \"Beli kopi 25k di Starbucks\"."
  const SuccessMark := "\U{2705} "
  const FailurePrefix := "\U{274C} Gagal memproses: "
  const DetailHead := "\n\nDetail:\n- Deskripsi: "
  const AmountHead := "\n- Jumlah: Rp "
  const CategoryHead := "\n- Kategori: "
  /** V8's message for calling `trim` on text that is not a string. */
  const TrimNotAFunction := "msg?.trim is not a function"
  const NullResultRead := "Cannot read properties of null (reading 'ok')"

  /** `o?.key`: nothing when `o` is null or undefined, the property otherwise. */
  function Field(o: Option<Json>, key: string): (r: Option<Json>)
    ensures Nullish(o) ==> r.None?
    ensures r.Some? ==> o.value.JObj? && key in o.value.fields && r.value == o.value.fields[key]
    ensures !Nullish(o) && o.value.JObj? && key in o.value.fields ==> r == Some(o.value.fields[key])
  {
    if Nullish(o) then None else Get(o.value, key)
  }

  /** `update?.message?.text`. */
  function MessageText(update: Json): Option<Json> {
    Field(Field(Some(update), "message"), "text")
  }

  /** `update?.message?.from?.id?.toString()`. */
  function SenderId(update: Json): (id: Option<string>)
    ensures id.Some? <==> !Nullish(Field(Field(Field(Some(update), "message"), "from"), "id"))
    ensures var v := Field(Field(Field(Some(update), "message"), "from"), "id");
      id.Some? ==>
        && (v.value.JNum? ==> id.value == Locale.Digits(v.value.n))
        && (v.value.JStr? ==> id.value == v.value.s)
        && (v.value.JBool? ==> id.value == (if v.value.b then "true" else "false"))
  {
    var id := Field(Field(Field(Some(update), "message"), "from"), "id");
    if Nullish(id) then None else Some(Text(id.value))
  }

  /** What the handler does with an update. `Fail` is an error thrown before
      anything is sent. */
  datatype Action = Ignore | Welcome(chatId: string) | Forward(text: string, chatId: string) | Fail(error: string)

  /** The dispatch: ignore an update without truthy text or sender id, greet on
      "/start" (after trimming), forward any other text untouched. Text that is
      not a string has no `trim` to call. */
  function Decide(update: Json): (a: Action)
    ensures a.Ignore? <==> !Truthy(MessageText(update)) || SenderId(update) in {None, Some([])}
    ensures a.Welcome? <==>
              && !a.Ignore? && MessageText(update).value.JStr?
              && Trim(MessageText(update).value.s) == Start
    ensures a.Forward? ==>
              && MessageText(update) == Some(JStr(a.text))
              && Trim(a.text) != Start
              && SenderId(update) == Some(a.chatId) && a.chatId != []
    ensures a.Welcome? ==> SenderId(update) == Some(a.chatId) && a.chatId != []
    ensures a.Fail? ==> a.error == TrimNotAFunction && !MessageText(update).value.JStr?
  {
    var msg := MessageText(update);
    var from := SenderId(update);
    if !Truthy(msg) || from.None? || from.value == [] then Ignore
    else if !msg.value.JStr? then Fail(TrimNotAFunction)
    else if Trim(msg.value.s) == Start then Welcome(from.value)
    else Forward(msg.value.s, from.value)
  }

  /** The outcome of an awaited call: a value, or a thrown error's message. */
  datatype Call<T> = Returned(value: T) | Threw(message: string)

  /** The reply sent for the classify endpoint's answer `result`. A successful
      answer is expected to carry an object in `data`; a missing `data` makes the
      detail read throw. */
  function ReplyText(result: Json): (r: Result<string, string>)
    ensures r.Failure? <==> result == JNull || (Truthy(Get(result, "ok")) && Nullish(Get(result, "data")))
  {
    if result == JNull then Failure(NullResultRead)
    else if Truthy(Get(result, "ok")) then
      var data := Get(result, "data");
      if data == None then Failure("Cannot read properties of undefined (reading 'description')")
      else if data == Some(JNull) then Failure("Cannot read properties of null (reading 'description')")
      else
        Success(SuccessMark + Details(TextOf(Get(result, "message")), data.value))
    else Success(FailurePrefix + TextOf(Get(result, "error")))
  }

  /** The message and the item's detail lines that follow the check mark. */
  function Details(message: string, data: Json): (r: string)
    requires data != JNull
    ensures StartsWith(r, message + DetailHead + TextOf(Get(data, "description")) + AmountHead)
    ensures EndsWith(r, CategoryHead + TextOf(Get(data, "category")))
  {
    var head := message + DetailHead + TextOf(Get(data, "description")) + AmountHead;
    var tail := CategoryHead + TextOf(Get(data, "category"));
    var figure := Format(ToNumber(Get(data, "amount")));
    Framed(head, figure, tail);
    head + figure + tail
  }

  lemma Framed(head: string, mid: string, tail: string)
    ensures StartsWith(head + mid + tail, head) && EndsWith(head + mid + tail, tail)
  {
    var r := head + mid + tail;
    assert r[..|head|] == head;
    assert r[|r| - |tail|..] == tail;
  }

  /** A call the handler makes: a `sendMessage` to a chat, or a classify request. */
  datatype Effect = SendMessage(chatId: string, text: string) | Classify(text: string, userId: string)

  /** The handler's JSON answer, with the calls it made in order. */
  datatype Outcome = Outcome(status: nat, ok: bool, error: Option<string>, effects: seq<Effect>)

  /** The webhook. `request` is the parsed body or the parse error, `classify`
      the classify endpoint's parsed answer for a text and sender, and
      `sendError` the error a `sendMessage` call throws, if it does. */
  function Handle(request: Result<Json, string>, classify: (string, string) -> Call<Json>,
                  sendError: Option<string>): (out: Outcome)
    ensures out.status == 200
    ensures out.ok <==> out.error.None?
  {
    match request
    case Failure(e) => Outcome(200, false, Some(e), [])
    case Success(update) =>
      match Decide(update)
      case Ignore => Outcome(200, true, None, [])
      case Fail(e) => Outcome(200, false, Some(e), [])
      case Welcome(chat) => Sent([SendMessage(chat, WelcomeText)], sendError)
      case Forward(text, chat) =>
        var asked := [Classify(text, chat)];
        match classify(text, chat)
        case Threw(e) => Outcome(200, false, Some(e), asked)
        case Returned(result) =>
          match ReplyText(result)
          case Failure(e) => Outcome(200, false, Some(e), asked)
          case Success(reply) => Sent(asked + [SendMessage(chat, reply)], sendError)
  }

  /** The answer after the last call, a `sendMessage`: acknowledged unless it threw. */
  function Sent(effects: seq<Effect>, sendError: Option<string>): (out: Outcome)
    ensures out.status == 200 && out.effects == effects
    ensures out.ok <==> sendError.None?
    ensures out.error == sendError
  {
    if sendError.Some? then Outcome(200, false, sendError, effects) else Outcome(200, true, None, effects)
  }

  /** An update without text or sender is acknowledged and nothing is called. */
  lemma IgnoredUpdateAcknowledged(update: Json, classify: (string, string) -> Call<Json>, sendError: Option<string>)
    requires Decide(update).Ignore?
    ensures Handle(Success(update), classify, sendError) == Outcome(200, true, None, [])
  {
  }

  /** "/start" sends the welcome text to the sender and never reaches classify. */
  lemma StartGreetsWithoutClassify(update: Json, classify: (string, string) -> Call<Json>, sendError: Option<string>)
    requires Decide(update).Welcome?
    ensures var out := Handle(Success(update), classify, sendError);
      && out.effects == [SendMessage(SenderId(update).value, WelcomeText)]
      && forall i :: 0 <= i < |out.effects| ==> !out.effects[i].Classify?
  {
  }

  /** Other text goes to classify verbatim, with the sender id as user id, and
      the reply built from classify's answer goes back to the sender. */
  lemma ForwardedVerbatim(update: Json, classify: (string, string) -> Call<Json>, sendError: Option<string>)
    requires Decide(update).Forward?
    ensures var out := Handle(Success(update), classify, sendError);
      var text, chat := Decide(update).text, Decide(update).chatId;
      && MessageText(update) == Some(JStr(text))
      && SenderId(update) == Some(chat)
      && |out.effects| >= 1 && out.effects[0] == Classify(text, chat)
      && (classify(text, chat).Returned? && ReplyText(classify(text, chat).value).Success? ==>
            out.effects == [Classify(text, chat), SendMessage(chat, ReplyText(classify(text, chat).value).value)])
  {
  }

  /** The acknowledgement says `ok` exactly when no awaited step threw. */
  lemma OkIffNothingThrew(request: Result<Json, string>, classify: (string, string) -> Call<Json>, sendError: Option<string>)
    ensures var out := Handle(request, classify, sendError);
      out.ok <==>
        && request.Success?
        && !Decide(request.value).Fail?
        && (Decide(request.value).Welcome? ==> sendError.None?)
        && (Decide(request.value).Forward? ==>
              var a := Decide(request.value);
              && classify(a.text, a.chatId).Returned?
              && ReplyText(classify(a.text, a.chatId).value).Success?
              && sendError.None?)
  {
  }

  /** A reply starts with the check mark exactly when classify reported
      success; a failure reply ends in the reported error's text. */
  lemma ReplyMark(result: Json)
    requires ReplyText(result).Success?
    ensures var r := ReplyText(result).value;
      && (StartsWith(r, SuccessMark) <==> Truthy(Get(result, "ok")))
      && (!Truthy(Get(result, "ok")) ==>
            StartsWith(r, FailurePrefix) && r[|FailurePrefix|..] == TextOf(Get(result, "error")))
  {
    var r := ReplyText(result).value;
    assert SuccessMark[0] != FailurePrefix[0];
    if Truthy(Get(result, "ok")) {
      var data := Get(result, "data").value;
      MarkedText(SuccessMark, Details(TextOf(Get(result, "message")), data));
    } else {
      var e := TextOf(Get(result, "error"));
      MarkedText(FailurePrefix, e);
      if |SuccessMark| <= |r| {
        assert r[..|SuccessMark|][0] == r[0];
      }
    }
  }

  lemma MarkedText(mark: string, rest: string)
    requires mark != []
    ensures var r := mark + rest;
      StartsWith(r, mark) && r[0] == mark[0] && r[|mark|..] == rest
  {
    assert (mark + rest)[..|mark|] == mark;
  }

  /** In a success reply for a whole-number amount, the figure on the amount
      line reads back as that amount. */
  lemma ReplyAmountReadsBack(result: Json, n: nat)
    requires result.JObj? && Truthy(Get(result, "ok"))
    requires Get(result, "data").Some? && Get(result, "data").value.JObj?
    requires Get(Get(result, "data").value, "amount") == Some(JNum(n))
    ensures var data := Get(result, "data").value;
      var m := TextOf(Get(result, "message"));
      var d, c := TextOf(Get(data, "description")), TextOf(Get(data, "category"));
      && ReplyText(result) == Success(SuccessMark + (m + DetailHead + d + AmountHead + Format(Fin(n)) + CategoryHead + c))
      && Summary.ReadAmount(Format(Fin(n))) == Some(n)
  {
    var data := Get(result, "data").value;
    var m := TextOf(Get(result, "message"));
    assert ReplyText(result) == Success(SuccessMark + Details(m, data));
    DetailsWithAmount(m, data, n);
    Summary.FormatReadsBack(Fin(n));
  }

  lemma DetailsWithAmount(m: string, data: Json, n: nat)
    requires data.JObj? && Get(data, "amount") == Some(JNum(n))
    ensures var d, c := TextOf(Get(data, "description")), TextOf(Get(data, "category"));
      Details(m, data) == m + DetailHead + d + AmountHead + Format(Fin(n)) + CategoryHead + c
  {
    var d, c := TextOf(Get(data, "description")), TextOf(Get(data, "category"));
    assert ToNumber(Get(data, "amount")) == Fin(n);
    var head := m + DetailHead + d + AmountHead + Format(Fin(n));
    assert head + (CategoryHead + c) == head + CategoryHead + c;
  }
}
