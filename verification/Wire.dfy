/** Values shared by the server, the wire and the client: block content and streamed operations. */
module Wire {
  import opened Wrappers
  import opened Forest
  import opened Ranks

  datatype Json = Null | Value(text: string)
  type Attrs = map<string, Json>

  /** A content object: its `attrs` (absent when None) and everything else. */
  datatype Content = Content(attrs: Option<Attrs>, body: string)

  function AttrsOf(c: Content): Attrs {
    if c.attrs.Some? then c.attrs.value else map[]
  }

  /** An applied operation as it is put on the stream; `version` is the version it produced. */
  datatype WireOp = WireOp(id: Id, version: nat, payload: Payload)

  datatype Payload =
    | InsertPayload(typ: string, parent: Option<Id>, position: Rank, depth: nat, content: Content)
    | DeletePayload
    | MovePayload(parent: Option<Id>, position: Rank, depth: nat)
    | AttrsPayload(attrs: Attrs)
    | ContentPayload(content: Content)
}
