/**
 * `BaseNotificationSender.sendNotification`: the subject selects an entry of the sender's
 * subject table; the payload must pass the entry's schema; the entry's handler is then
 * called once on the parsed data, with the sender as `this`.
 */
module NotificationSender {
  import opened Wrappers
  import opened NotificationTypes

  /**
   * A subject entry: the handler (by name; it runs as a method of the sender) and the
   * schema's `safeParse`, which yields the parsed data or fails.
   */
  datatype SubjectEntry = SubjectEntry(handler: string, schema: Json -> Option<Json>)

  /** A concrete sender: its `Type` and its `Subjects` table. */
  datatype Sender = Sender(senderType: NotificationType, subjects: map<string, SubjectEntry>)

  /** How a call ends. */
  datatype Dispatch =
    | UnknownSubject
    | InvalidPayload
    | HandlerCalled(handler: string, data: Json)
    /** An inherited member was found: reading `.schema.safeParse` off it throws a `TypeError`. */
    | SchemaTypeError

  /**
   * `sendNotification(subject, payload)`: an unknown subject and a payload the schema
   * refuses both resolve without calling any handler; otherwise the subject's handler is
   * called with the schema's parsed data (not the raw payload).
   */
  function SendNotification(sender: Sender, subject: string, payload: Json): (r: Dispatch)
    ensures r.HandlerCalled? <==> subject in sender.subjects && sender.subjects[subject].schema(payload).Some?
    ensures r.HandlerCalled? ==>
      r.handler == sender.subjects[subject].handler && Some(r.data) == sender.subjects[subject].schema(payload)
    ensures r.InvalidPayload? <==> subject in sender.subjects && sender.subjects[subject].schema(payload).None?
    ensures r.UnknownSubject? <==> subject !in sender.subjects && subject !in InheritedNames
    ensures r.SchemaTypeError? <==> subject !in sender.subjects && subject in InheritedNames
  {
    match GetProperty(sender.subjects, subject)
    case Undefined => UnknownSubject
    case Inherited => SchemaTypeError
    case Own(entry) =>
      match entry.schema(payload)
      case None => InvalidPayload
      case Some(data) => HandlerCalled(entry.handler, data)
  }

  /**
   * Dispatch is an exact-key lookup: two senders whose tables hold the same entry under a
   * subject, or neither holds it, treat that subject alike whatever else their tables hold.
   */
  lemma ExactKeyDispatch(a: Sender, b: Sender, subject: string, payload: Json)
    requires (subject in a.subjects <==> subject in b.subjects)
    requires subject in a.subjects ==> a.subjects[subject] == b.subjects[subject]
    ensures SendNotification(a, subject, payload) == SendNotification(b, subject, payload)
  {
  }
}
