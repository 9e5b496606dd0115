/** The unit recorded during a scenario run (pkg/events/event.go). Times are
    nanosecond counts; 0 is the zero time. Payloads are opaque text. */
module Events {
  datatype Direction = Produced | ProducedFailed | Consumed | HTTPCall | AgentOut

  datatype Event = Event(
    stream: string,
    key: string,
    ts: int,
    headers: map<string, string>,
    payload: string,
    direction: Direction)

  ghost predicate SortedByTs(s: seq<Event>) {
    forall i, j :: 0 <= i < j < |s| ==> s[i].ts <= s[j].ts
  }
}
