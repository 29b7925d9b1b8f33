/** The local conversation model shared by the controller and the tutor
    client (types.ts). Identifiers, timestamps and the unused `isThinking`
    flag are not modelled. */
module Types {

  datatype Option<+T> = None | Some(value: T)

  datatype Result<+R, +E> = Ok(value: R) | Err(error: E)

  /** Who produced a turn. */
  datatype Role = User | Assistant | System

  /** One unit of content: an optional text and an optional image data URL.
      An absent field is `None`; the source's optional string properties. */
  datatype MessagePart = MessagePart(text: Option<string>, image: Option<string>)

  /** One conversational turn. */
  datatype Message = Message(role: Role, parts: seq<MessagePart>)

  /** JavaScript truthiness of an optional string: present and not empty. */
  predicate Truthy(s: Option<string>)
    ensures Truthy(s) <==> s.Some? && |s.value| > 0
  {
    s.Some? && s.value != ""
  }

  /** `s || fallback` for an optional string. */
  function OrElse(s: Option<string>, fallback: string): (r: string)
    ensures Truthy(s) ==> r == s.value
    ensures !Truthy(s) ==> r == fallback
    ensures r == fallback || (s.Some? && r == s.value)
  {
    if s.Some? && s.value != "" then s.value else fallback
  }
}
