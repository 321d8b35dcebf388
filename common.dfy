/** Value types shared by the listeners and the command: identifiers, the
    outcome of a call into a collaborator that may reject, and the two
    diagnostic channels the bot reports failures on. */
module Common {

  /** A platform identifier (guild, channel, user or message id), a string in the source. */
  type Snowflake = string

  datatype Option<+T> = None | Some(value: T)

  /** A value, or the error a command raises with `this.error`. */
  datatype Result<+T, +E> = Ok(value: T) | Err(error: E)

  /** JavaScript truthiness of a `string | null | undefined` value: absent and
      the empty string are both falsy. */
  predicate Present(o: Option<string>) {
    o.Some? && o.value != ""
  }

  /** What an awaited collaborator call did: resolved, or rejected with an error. */
  datatype Outcome = Succeeded | Failed(error: string)

  /** A reported failure. `ClientError` is `client.emit(Events.Error, error)`;
      `Fatal` is `logger.fatal(error)`. */
  datatype Diagnostic = ClientError(error: string) | Fatal(error: string)

  /** The entry `k` of `m` is the one it was in `m0`, or both lack it. */
  ghost predicate SameEntry<K, V>(m: map<K, V>, m0: map<K, V>, k: K) {
    (k in m <==> k in m0) && (k in m ==> m[k] == m0[k])
  }
}
