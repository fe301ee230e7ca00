/**
 The provider-neutral conversation: roles, content parts and messages.
 */
module Messages {
  import opened Basics

  /** A JSON value, known by its compact text. */
  datatype Json = Null | Json(text: string)

  function Rendered(j: Json): string
  {
    if j.Null? then "null" else j.text
  }

  datatype Role = System | User | Assistant | Tool

  datatype Part =
    | Text(text: string)
    | CallRequest(id: string, name: string, arguments: Json)
    | CallResult(callId: string, output: Json, error: Option<string>)

  datatype Message = Message(role: Role, parts: seq<Part>)
}
