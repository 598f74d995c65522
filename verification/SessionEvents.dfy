/** Session events as the bridge stores and pages them. */
module SessionEvents {
  datatype EventType =
    | Message | MessageDelta | ReasoningSummary | ReasoningSummaryDelta | Plan | PlanDelta
    | ToolCall | ToolResult | ApprovalRequested | ApprovalResolved | StatusChanged | ErrorEvent

  /** `payload` stands for the JSON text, which the cache carries without looking inside. */
  datatype SessionEvent = SessionEvent(
    id: string, threadId: string, eventType: EventType, payload: string, createdAt: nat)

  ghost predicate UniqueIds(events: seq<SessionEvent>) {
    forall i, j :: 0 <= i < j < |events| ==> events[i].id != events[j].id
  }

  function HasId(id: string): SessionEvent -> bool {
    (event: SessionEvent) => event.id == id
  }

  predicate IsTool(event: SessionEvent) {
    event.eventType == ToolCall || event.eventType == ToolResult
  }
}
