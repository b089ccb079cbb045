/** The OCPP 1.6 vocabulary the current engine reads: one decoded log row per
    event, with its payload already parsed into typed, possibly absent fields. */
module Events {
  import opened Wrappers

  /** The `command` column. */
  datatype Command =
    | StartTransactionRequest
    | StopTransactionRequest
    | StatusNotificationRequest
    | MeterValuesRequest
    | OtherCommand(name: string)

  /** The `value` of a sampled value: absent, a string `float()` accepts, or one it rejects. */
  datatype SampleValue = Missing | Numeric(x: real) | NonNumeric(text: string)

  /** One entry of `sampledValue` (OCPP 1.6, section 7.43). */
  datatype SampledValue = SampledValue(
    measurand: Option<string>,
    location: Option<string>,
    unit: Option<string>,
    value: SampleValue)

  /** One entry of `meterValue`: its `sampledValue` list. */
  datatype MeterValue = MeterValue(sampledValue: seq<SampledValue>)

  /** The decoded `payLoadData`; `None` is a key the payload does not have. An absent
      `meterValue` list is the empty list, as `payload.get('meterValue', [])` reads it. */
  datatype Payload = Payload(
    connectorId: Option<int>,
    transactionId: Option<int>,
    idTag: Option<string>,
    meterStart: Option<int>,
    meterStop: Option<int>,
    reason: Option<string>,
    status: Option<string>,
    errorCode: Option<string>,
    meterValue: seq<MeterValue>)

  /** One log row: its command, its `real_time` in seconds and its payload. */
  datatype Event = Event(command: Command, time: int, payload: Payload)

  /** `payload.get('connectorId', 0)`. */
  function ConnectorOf(e: Event): int {
    e.payload.connectorId.GetOr(0)
  }
}
