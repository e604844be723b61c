/**
 * The quote half of fetchData once the response body has been decoded: an
 * absent or empty "Global Quote" object means no quote was found; otherwise
 * the price and change-percent members are read as strings and passed on
 * unchanged.
 */
module Quote {
  import opened Results
  import opened Json

  const QuoteKey: string := "Global Quote"
  const PriceKey: string := "05. price"
  const ChangePercentKey: string := "10. change percent"

  /** What the quote lookup reports when it does not throw. */
  datatype QuoteOutcome =
    | NotFound
    | Found(price: string, changePercent: string)

  /** The exceptions the lookup can end with. */
  datatype QuoteError =
    | BodyNotAnObject
    | QuoteNotAnObject
    | MissingField(key: string)
    | FieldNotAString(key: string)

  /** getAsString() on the member named key, failing as the source does when it is absent. */
  function ReadString(fields: seq<Member>, key: string): (r: Result<string, QuoteError>)
    ensures r.Success? <==> Get(fields, key).Some? && AsString(Get(fields, key).value).Some?
    ensures r.Success? ==> r.value == AsString(Get(fields, key).value).value
    ensures Get(fields, key).None? ==> r == Failure(MissingField(key))
  {
    match Get(fields, key)
    case None => Failure(MissingField(key))
    case Some(v) =>
      match AsString(v)
      case None => Failure(FieldNotAString(key))
      case Some(s) => Success(s)
  }

  /** The null-or-empty check and the two field reads of fetchData. */
  function ReadQuote(body: Json): (r: Result<QuoteOutcome, QuoteError>)
    ensures r == Success(NotFound) <==>
              body.JObject? && (Get(body.members, QuoteKey).None? || Get(body.members, QuoteKey) == Some(JObject([])))
    ensures r.Success? && r.value.Found? ==>
              body.JObject? && Get(body.members, QuoteKey).Some? && Get(body.members, QuoteKey).value.JObject?
              && var fields := Get(body.members, QuoteKey).value.members;
                 fields != []
                 && ReadString(fields, PriceKey) == Success(r.value.price)
                 && ReadString(fields, ChangePercentKey) == Success(r.value.changePercent)
    ensures !body.JObject? ==> r == Failure(BodyNotAnObject)
    ensures body.JObject? && Get(body.members, QuoteKey).Some? && !Get(body.members, QuoteKey).value.JObject? ==>
              r == Failure(QuoteNotAnObject)
    ensures body.JObject? && Get(body.members, QuoteKey).Some? && Get(body.members, QuoteKey).value.JObject? ==>
              var fields := Get(body.members, QuoteKey).value.members;
              var price, percent := ReadString(fields, PriceKey), ReadString(fields, ChangePercentKey);
              fields != [] ==>
                r == if price.Failure? then Failure(price.error)
                     else if percent.Failure? then Failure(percent.error)
                     else Success(Found(price.value, percent.value))
  {
    match AsObject(body)
    case Failure(_) => Failure(BodyNotAnObject)
    case Success(top) =>
      match GetObject(top, QuoteKey)
      case Failure(_) => Failure(QuoteNotAnObject)
      case Success(None) => Success(NotFound)
      case Success(Some(fields)) =>
        if |fields| == 0 then Success(NotFound)
        else
          match ReadString(fields, PriceKey)
          case Failure(e) => Failure(e)
          case Success(price) =>
            match ReadString(fields, ChangePercentKey)
            case Failure(e) => Failure(e)
            case Success(percent) => Success(Found(price, percent))
  }

  /**
   * String members are passed through verbatim, whatever else the quote
   * object holds; a number member comes back as the text it was written with.
   */
  lemma FieldsPassThrough(body: Json, fields: seq<Member>, price: string, percent: string)
    requires body.JObject? && Get(body.members, QuoteKey) == Some(JObject(fields))
    requires Get(fields, PriceKey) in {Some(JString(price)), Some(JNumber(price))}
    requires Get(fields, ChangePercentKey) in {Some(JString(percent)), Some(JNumber(percent))}
    ensures ReadQuote(body) == Success(Found(price, percent))
  {
  }

  /** An empty quote object is "not found", never a quote with default values. */
  lemma EmptyQuoteIsNotFound(body: Json)
    requires body.JObject? && Get(body.members, QuoteKey) == Some(JObject([]))
    ensures ReadQuote(body) == Success(NotFound)
  {
  }
}
