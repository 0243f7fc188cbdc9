/** Shared result types for the anime-bot model.

    Calls into code outside the model (the streaming provider, the chat
    client, the file system, the database) are represented by the value they
    return or by the message of the exception they raise. */
module Common {

  datatype Option<+T> = None | Some(value: T)

  /** The outcome of a call that may raise: `Raises(msg)` carries `str(exc)`. */
  datatype Call<+T> = Returns(value: T) | Raises(message: string)

  /** An entry of the provider's episode list: its `episode` field, kept as
      the text the provider sent, and its `session` identifier. */
  datatype Episode = Episode(number: string, session: string)

  /** Python truthiness of an optional string: `None` and `""` are falsy. */
  predicate Truthy(s: Option<string>)
  {
    s.Some? && s.value != ""
  }
}
