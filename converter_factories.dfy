/**
 * The message converter factories of protocol versions 1 and 18: a lookup from message type to the converter that
 * translates that message between the current and the older version. Version 1 refuses types it has no entry
 * for; version 18 falls back to the converter that changes nothing.
 */
module ConverterFactories {
  import opened Wrappers
  import opened MessageTypes

  /** The converters the two factories hand out (their conversions are not part of this model). */
  datatype Converter =
    | HelloConverterV1
    | TxConverterV1
    | BroadcastConverterV1
    | KeyConverterV1
    | PingConverterV1
    | PongConverterV1
    | NoChangesConverter
    | BdnPerformanceStatsConverterV18

  /** The `ValueError`s of `get_message_converter`. */
  datatype FactoryError = MsgTypeRequired | ConverterNotDefined(msgType: MessageType)

  /** `_MessageConverterFactoryV1._MESSAGE_CONVERTER_MAPPING`. */
  const V1_MAPPING: map<MessageType, Converter> := map[
    Hello := HelloConverterV1,
    Transaction := TxConverterV1,
    Broadcast := BroadcastConverterV1,
    Key := KeyConverterV1,
    Ack := NoChangesConverter,
    GetTransactions := NoChangesConverter,
    Transactions := NoChangesConverter,
    Ping := PingConverterV1,
    Pong := PongConverterV1
  ]

  /** `_MessageConverterFactoryV18._MESSAGE_CONVERTER_MAPPING`. */
  const V18_MAPPING: map<MessageType, Converter> := map[BdnPerformanceStats := BdnPerformanceStatsConverterV18]

  /** `message_converter_factory_v1.get_message_converter(msg_type)`. */
  function GetMessageConverterV1(t: Option<MessageType>): (r: Result<Converter, FactoryError>)
    ensures r == Err(MsgTypeRequired) <==> Falsy(t)
    ensures !Falsy(t) ==> (r.Err? <==> t.value !in V1_MAPPING)
    ensures !Falsy(t) && r.Err? ==> r.error == ConverterNotDefined(t.value)
    ensures r.Ok? ==> t.Some? && t.value in V1_MAPPING && r.value == V1_MAPPING[t.value]
  {
    if Falsy(t) then Err(MsgTypeRequired)
    else if t.value !in V1_MAPPING then Err(ConverterNotDefined(t.value))
    else Ok(V1_MAPPING[t.value])
  }

  /** `message_converter_factory_v18.get_message_converter(msg_type)`. */
  function GetMessageConverterV18(t: Option<MessageType>): (r: Result<Converter, FactoryError>)
    ensures r.Err? <==> Falsy(t)
    ensures r.Err? ==> r.error == MsgTypeRequired
    ensures r.Ok? ==> r.value == if t.value in V18_MAPPING then V18_MAPPING[t.value] else NoChangesConverter
  {
    if Falsy(t) then Err(MsgTypeRequired)
    else if t.value !in V18_MAPPING then Ok(NoChangesConverter)
    else Ok(V18_MAPPING[t.value])
  }

  /** Version 1 knows exactly nine types; three of them need no conversion, the other six have their own converter. */
  lemma V1Table(t: MessageType)
    ensures GetMessageConverterV1(Some(t)).Ok? <==>
      t in {Hello, Transaction, Broadcast, Key, Ack, GetTransactions, Transactions, Ping, Pong}
    ensures GetMessageConverterV1(Some(t)) == Ok(NoChangesConverter) <==> t in {Ack, GetTransactions, Transactions}
    ensures t == Hello ==> GetMessageConverterV1(Some(t)) == Ok(HelloConverterV1)
    ensures t == Transaction ==> GetMessageConverterV1(Some(t)) == Ok(TxConverterV1)
    ensures t == Broadcast ==> GetMessageConverterV1(Some(t)) == Ok(BroadcastConverterV1)
    ensures t == Key ==> GetMessageConverterV1(Some(t)) == Ok(KeyConverterV1)
    ensures t == Ping ==> GetMessageConverterV1(Some(t)) == Ok(PingConverterV1)
    ensures t == Pong ==> GetMessageConverterV1(Some(t)) == Ok(PongConverterV1)
  {
  }

  /** Version 18 converts only the performance statistics; every other truthy type passes unchanged. */
  lemma V18Table(t: Option<MessageType>)
    requires !Falsy(t)
    ensures GetMessageConverterV18(t) == Ok(BdnPerformanceStatsConverterV18) <==> t == Some(BdnPerformanceStats)
    ensures t != Some(BdnPerformanceStats) ==> GetMessageConverterV18(t) == Ok(NoChangesConverter)
  {
  }

  /**
   * For a truthy type the version-18 lookup never raises, while the version-1 lookup raises for every type outside
   * its table (for instance the performance statistics, which version 18 does convert).
   */
  lemma V18TotalV1Partial(t: Option<MessageType>)
    requires !Falsy(t)
    ensures GetMessageConverterV18(t).Ok?
    ensures GetMessageConverterV1(t).Err? <==> t.value !in V1_MAPPING
    ensures GetMessageConverterV1(Some(BdnPerformanceStats)) == Err(ConverterNotDefined(BdnPerformanceStats))
  {
  }
}
