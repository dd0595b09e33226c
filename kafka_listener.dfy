/**
 * `KafkaListener`: the sender table built in the constructor, and the handling of one
 * consumed message (`eachMessage`): guard, parse, look up the sender by the `type` header,
 * and hand the message key (as subject) and the parsed value to it. Every error in the
 * handling is caught and logged, so no outcome propagates to the consumer.
 *
 * Connecting, subscribing and running the consumer are broker I/O and are not modelled.
 */
module KafkaListener {
  import opened Wrappers
  import opened NotificationTypes
  import opened NotificationSender

  /**
   * A message header value: a buffer (always truthy, even when empty) or a string (falsy
   * when empty); `text` is what `toString()` yields.
   */
  datatype HeaderValue = BufferHeader(text: string) | StringHeader(text: string)

  predicate Truthy(h: HeaderValue) {
    !(h.StringHeader? && h.text == "")
  }

  /** A consumed message: key and value are buffers or null, the headers may be absent. */
  datatype Message = Message(key: Option<string>, value: Option<string>, headers: Option<map<string, HeaderValue>>)

  /** The name of the header that selects the sender. */
  const TypeHeader: string := "type"

  /** How the handling of a message ends. */
  datatype Handling =
    | Skipped
    | ParseError
    | NoSender(senderType: string)
    | LookupTypeError
    | Delivered(senderType: string, subject: string, payload: Json, dispatch: Dispatch)

  /** The constructor's `reduce`: each sender stored under its type name, a later one replacing an earlier one. */
  function SenderTable(senders: seq<Sender>): map<string, Sender> {
    if senders == [] then map[]
    else SenderTable(senders[..|senders| - 1])[TypeName(senders[|senders| - 1].senderType) := senders[|senders| - 1]]
  }

  /** The guard: a key, a value and a truthy `type` header are all present. */
  predicate Deliverable(message: Message) {
    && message.key.Some? && message.value.Some? && message.headers.Some?
    && TypeHeader in message.headers.value && Truthy(message.headers.value[TypeHeader])
  }

  /**
   * `eachMessage` with the table `table` and `parseJson` for `JSON.parse`: the guard, then
   * the parse (which runs before the sender lookup), then the lookup, then the delivery.
   */
  function EachMessage(table: map<string, Sender>, message: Message, parseJson: string -> Option<Json>): Handling {
    if !Deliverable(message) then Skipped
    else
      var senderType := message.headers.value[TypeHeader].text;
      match parseJson(message.value.value)
      case None => ParseError
      case Some(payload) =>
        match GetProperty(table, senderType)
        case Undefined => NoSender(senderType)
        case Inherited => LookupTypeError
        case Own(sender) =>
          Delivered(senderType, message.key.value, payload, SendNotification(sender, message.key.value, payload))
  }

  /** The table holds exactly the type names of the senders given. */
  lemma {:induction false} SenderTableKeys(senders: seq<Sender>, name: string)
    ensures name in SenderTable(senders) <==> exists i :: 0 <= i < |senders| && TypeName(senders[i].senderType) == name
    decreases |senders|
  {
    if senders != [] {
      var init := senders[..|senders| - 1];
      SenderTableKeys(init, name);
      if name in SenderTable(init) {
        var i :| 0 <= i < |init| && TypeName(init[i].senderType) == name;
        assert senders[i] == init[i];
      }
      if exists i :: 0 <= i < |senders| && TypeName(senders[i].senderType) == name {
        var i :| 0 <= i < |senders| && TypeName(senders[i].senderType) == name;
        if i < |init| {
          assert init[i] == senders[i];
        }
      }
    }
  }

  /** Under each type the table holds the last sender of that type: a later sender replaces an earlier one. */
  lemma {:induction false} SenderTableLast(senders: seq<Sender>, i: int)
    requires 0 <= i < |senders|
    requires forall j :: i < j < |senders| ==> senders[j].senderType != senders[i].senderType
    ensures TypeName(senders[i].senderType) in SenderTable(senders)
    ensures SenderTable(senders)[TypeName(senders[i].senderType)] == senders[i]
    decreases |senders|
  {
    var init := senders[..|senders| - 1];
    var last := senders[|senders| - 1];
    if i < |init| {
      assert last.senderType != senders[i].senderType;
      TypeNameInjective(last.senderType, senders[i].senderType);
      assert init[i] == senders[i];
      assert forall j :: i < j < |init| ==> init[j] == senders[j];
      SenderTableLast(init, i);
    }
  }

  /** A message without a key, a value or a truthy `type` header is ignored before anything is parsed. */
  lemma GuardSkips(table: map<string, Sender>, message: Message, parseJson: string -> Option<Json>)
    requires !Deliverable(message)
    ensures EachMessage(table, message, parseJson) == Skipped
  {
  }

  /**
   * Delivery: the message reaches a sender exactly when it passes the guard, its value
   * parses and its `type` names a registered sender; that sender then receives the key as
   * subject and the parsed value as payload.
   */
  lemma DeliveryExactly(table: map<string, Sender>, message: Message, parseJson: string -> Option<Json>)
    ensures var h := EachMessage(table, message, parseJson);
      && (h.Delivered? <==>
            Deliverable(message) && parseJson(message.value.value).Some?
            && message.headers.value[TypeHeader].text in table)
      && (h.Delivered? ==>
            && h.senderType == message.headers.value[TypeHeader].text
            && h.subject == message.key.value && Some(h.payload) == parseJson(message.value.value)
            && h.dispatch == SendNotification(table[h.senderType], h.subject, h.payload))
      && (h.NoSender? <==>
            Deliverable(message) && parseJson(message.value.value).Some?
            && message.headers.value[TypeHeader].text !in table
            && message.headers.value[TypeHeader].text !in InheritedNames)
      && (h.ParseError? <==> Deliverable(message) && parseJson(message.value.value).None?)
  {
  }

  class KafkaListener {
    const topic: string
    /** `senders`: the table keyed by type name. */
    const senders: map<string, Sender>

    /** The constructor's `reduce` over the senders, in order. */
    constructor (topic: string, senderList: seq<Sender>)
      ensures this.topic == topic && senders == SenderTable(senderList)
    {
      this.topic := topic;
      var acc: map<string, Sender> := map[];
      var i := 0;
      while i < |senderList|
        invariant 0 <= i <= |senderList|
        invariant acc == SenderTable(senderList[..i])
      {
        assert senderList[..i + 1][..i] == senderList[..i];
        acc := acc[TypeName(senderList[i].senderType) := senderList[i]];
        i := i + 1;
      }
      assert senderList[..i] == senderList;
      senders := acc;
    }

    /** `eachMessage`: the handling is `EachMessage` on the table. */
    method HandleMessage(message: Message, parseJson: string -> Option<Json>) returns (h: Handling)
      ensures h == EachMessage(senders, message, parseJson)
    {
      if message.key.None? || message.value.None? || message.headers.None? {
        return Skipped;
      }
      var headers := message.headers.value;
      if TypeHeader !in headers || !Truthy(headers[TypeHeader]) {
        return Skipped;
      }
      var senderType := headers[TypeHeader].text;
      var payload := parseJson(message.value.value);
      if payload.None? {
        return ParseError;
      }
      var sender := GetProperty(senders, senderType);
      if sender.Undefined? {
        return NoSender(senderType);
      }
      if sender.Inherited? {
        return LookupTypeError;
      }
      var dispatch := SendNotification(sender.value, message.key.value, payload.value);
      h := Delivered(senderType, message.key.value, payload.value, dispatch);
    }
  }
}
