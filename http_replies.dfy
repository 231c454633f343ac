/**
 * The status and JSON body the item controllers send, and the identifier
 * check they apply to the route parameter. Both item controllers build the
 * same bodies; they differ in the catalogue backend they call.
 */
module HttpReplies {
  import opened Wrappers
  import opened JsonValues
  import opened JsText

  /** What `res.status(status).json(body)` sends. */
  datatype Reply = Reply(status: int, body: Json)

  /** `{ success: false, error, message }`. */
  function Failure(status: int, error: string, message: string): Reply {
    Reply(status, JObject(map["success" := JBool(false), "error" := JString(error), "message" := JString(message)]))
  }

  const ServerError := "Erro interno do servidor"

  /**
   * `parseInt(raw)`, kept only when it is a number greater than zero: the
   * handlers answer 400 when it is `NaN` or not positive.
   */
  function PositiveId(raw: string): (r: Option<int>)
    ensures r.Some? ==> r.value > 0 && ParseInt(raw) == r
    ensures r.None? ==> ParseInt(raw).None? || ParseInt(raw).value <= 0
  {
    match ParseInt(raw)
    case None => None
    case Some(n) => if n <= 0 then None else Some(n)
  }

  /** The decimal text of a positive number is accepted as that number. */
  lemma PositiveIdOfDecimal(n: int)
    requires n > 0
    ensures PositiveId(IntToString(n)) == Some(n)
  {
    ParseIntOfIntToString(n);
  }

  /** The decimal text of zero or of a negative number is rejected. */
  lemma NonPositiveIdRejected(n: int)
    requires n <= 0
    ensures PositiveId(IntToString(n)) == None
  {
    ParseIntOfIntToString(n);
  }

  /** The answer to an identifier that is `NaN` or not positive. */
  const InvalidId := Failure(400, "ID inválido", "O ID deve ser um número positivo")

  /**
   * The answer to a lookup of `id`: 404 for `null` or another falsy record,
   * 200 with the record, 500 when the lookup threw.
   */
  function LookupReply(id: int, outcome: Result<Option<Json>, string>): Reply {
    match outcome
    case Err(_) => Failure(500, ServerError, "Não foi possível carregar o item")
    case Ok(found) =>
      if found.None? || Falsy(found.value) then
        Failure(404, "Item não encontrado", "Item com ID " + IntToString(id) + " não existe")
      else
        Reply(200, JObject(map["success" := JBool(true), "data" := found.value,
                               "message" := JString("Item encontrado com sucesso")]))
  }

  /**
   * The status of a lookup answer tells the outcome apart: 200 exactly for a
   * truthy record, which is then the body's `data`; 404 exactly for `null` or a
   * falsy record; 500 exactly for a lookup that threw.
   */
  lemma LookupStatuses(id: int, outcome: Result<Option<Json>, string>)
    ensures var r := LookupReply(id, outcome);
      && (r.status == 200 <==> outcome.Ok? && outcome.value.Some? && !Falsy(outcome.value.value))
      && (r.status == 200 ==> r.body.JObject? && "data" in r.body.fields && r.body.fields["data"] == outcome.value.value)
      && (r.status == 404 <==> outcome.Ok? && (outcome.value.None? || Falsy(outcome.value.value)))
      && (r.status == 500 <==> outcome.Err?)
  {
  }

  /**
   * The answer to a listing: 200 with the items, their count and a message, or
   * 500 when the listing threw.
   */
  function ListingReply(outcome: Result<seq<Json>, string>): Reply {
    match outcome
    case Err(_) => Failure(500, ServerError, "Não foi possível carregar os itens")
    case Ok(items) =>
      Reply(200, JObject(map["success" := JBool(true), "data" := JArray(items),
                             "count" := JNumber(|items|), "message" := JString("Itens carregados com sucesso")]))
  }

  /**
   * A listing answer is 200 exactly when the listing succeeded; its `data` is
   * then the listing unchanged and its `count` the number of items.
   */
  lemma ListingStatuses(outcome: Result<seq<Json>, string>)
    ensures var r := ListingReply(outcome);
      && (r.status == 200 <==> outcome.Ok?)
      && (r.status == 500 <==> outcome.Err?)
      && (r.status == 200 ==>
            && r.body == JObject(r.body.fields)
            && r.body.fields["success"] == JBool(true)
            && r.body.fields["data"] == JArray(outcome.value)
            && r.body.fields["count"] == JNumber(|r.body.fields["data"].elems|))
      && (r.status == 500 ==> r.body.fields["success"] == JBool(false))
  {
  }
}
