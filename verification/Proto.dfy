/** The fields of proto.Message that the client reads or writes. */
module Proto {
  import opened Wrappers

  type Payload = seq<int>

  datatype Message = Message(
    id: string,
    name: string,
    project: string,
    segment: string,
    sub: bool,
    subId: string,
    subPod: string,
    subModule: string,
    subBroker: string,
    subProject: string,
    error: string,
    payload: Payload,
    timestamp: Option<int>,     // in nanoseconds
    context: Option<Payload>)   // the typed context as JSON, or nil
}
