/** Shared value types: optional values, results, and the `_id`-keyed records
    that travel between the server and the browser. */
module Common {

  /** A value that may be absent. `None` plays the role of JavaScript's
      `undefined`; the modelled code never stores `null` in a key. */
  datatype Option<+T> = None | Some(value: T)

  /** The outcome of an operation that can throw: `Failure` carries the
      message of the thrown `Error`. */
  datatype Result<+R> = Success(value: R) | Failure(error: string)

  /** An identifier property as read off a plain object. An absent property
      reads as `None` (`undefined`), and `undefined === undefined` holds in
      JavaScript, so comparing two `Key`s with `==` is exactly `===`. */
  type Key = Option<string>

  /** A record as the client sees it: a plain object whose `_id` property is
      `docId`, whose plain `id` property is `id` (the only property of a
      deletion payload `{ id }`), and whose other properties are opaque. */
  datatype Record = Record(docId: Key, id: Key, fields: map<string, string>)

  /** A deletion payload `{ id: k }` as the server sends it. */
  function DeletionNotice(k: string): (r: Record)
    ensures r.id == Some(k) && r.docId == None
  {
    Record(None, Some(k), map[])
  }

  /** The `_id` of a record, as a function value for the keyed list helpers. */
  function DocIdOf(r: Record): Key { r.docId }
}
