/**
 Session events as the web client reads them.  A JSON payload is reduced to the members the client
 looks at; `rest` stands for all others, and `NotObject` for null, arrays and primitive values.
 */
module ClientEvents {
  import opened SessionEvents
  import opened Wrappers

  datatype Field = Absent | Str(text: string) | True | OtherValue(raw: string)

  datatype Payload =
    | NotObject(raw: string)
    | Object(role: Field, text: Field, delta: Field, pending: Field, bridgeEcho: Field, rest: string)

  datatype Event = Event(id: string, threadId: string, eventType: EventType, payload: Payload, createdAt: int)

  /** Library functions the client calls on text: they are parameters of the model. */
  datatype Env = Env(
    stringify: Payload -> string,
    stringifyField: Field -> string,
    trim: string -> string,
    isBridgeId: string -> bool)

  ghost predicate UniqueEventIds(events: seq<Event>) {
    forall i, j :: 0 <= i < j < |events| ==> events[i].id != events[j].id
  }

  function HasEventId(id: string): Event -> bool {
    (e: Event) => e.id == id
  }

  function PayloadText(env: Env, payload: Payload): string {
    if payload.Object? && payload.text != Absent then
      if payload.text.Str? then payload.text.text else env.stringifyField(payload.text)
    else env.stringify(payload)
  }

  function DeltaText(payload: Payload): string {
    if payload.NotObject? then ""
    else if payload.text.Str? then payload.text.text
    else if payload.delta.Str? then payload.delta.text
    else ""
  }

  predicate IsAssistantMessage(e: Event) {
    e.eventType == Message && e.payload.Object? && e.payload.role == Str("assistant")
  }

  predicate IsUserMessage(e: Event) {
    e.eventType == Message && e.payload.Object? && e.payload.role == Str("user") && e.payload.text.Str?
  }

  predicate IsPendingPayload(payload: Payload) {
    payload.Object? && payload.role == Str("user") && payload.text.Str? && payload.pending == True
  }

  predicate IsBridgeUserEcho(env: Env, e: Event) {
    IsUserMessage(e) && (e.payload.bridgeEcho == True || env.isBridgeId(e.id))
  }

  predicate IsCanonicalUserMessage(env: Env, e: Event) {
    IsUserMessage(e) && !IsPendingPayload(e.payload) && !IsBridgeUserEcho(env, e)
  }

  function NormalizedUserMessageText(env: Env, e: Event): Option<string> {
    if IsUserMessage(e) then Some(env.trim(e.payload.text.text)) else None
  }
}
