/**
 * The shared vocabulary of the mailer: the notification types and their wire names, the
 * JSON values that payloads parse to, and the property lookup of a JavaScript object
 * literal, which also finds the members every object inherits from `Object.prototype`.
 */
module NotificationTypes {
  /** `NotificationType`. */
  datatype NotificationType = Sms | Email | Push | Webhook | InApp

  /** The string value of each `NotificationType` member. */
  function TypeName(t: NotificationType): string {
    match t
    case Sms => "sms"
    case Email => "email"
    case Push => "push"
    case Webhook => "webhook"
    case InApp => "in_app"
  }

  /** Distinct notification types have distinct wire names. */
  lemma TypeNameInjective(a: NotificationType, b: NotificationType)
    ensures TypeName(a) == TypeName(b) <==> a == b
  {
  }

  /** A value `JSON.parse` can produce (numbers are integers here). */
  datatype Json =
    | JNull
    | JBool(b: bool)
    | JNumber(n: int)
    | JString(s: string)
    | JArray(items: seq<Json>)
    | JObject(fields: map<string, Json>)

  /**
   * The names under which a plain object literal finds a member of `Object.prototype`:
   * looking one of them up yields a function or an object, which is truthy but is neither
   * a subject entry, a sender nor a path.
   */
  const InheritedNames: set<string> := {
    "constructor", "hasOwnProperty", "isPrototypeOf", "propertyIsEnumerable", "toLocaleString",
    "toString", "valueOf", "__proto__", "__defineGetter__", "__defineSetter__",
    "__lookupGetter__", "__lookupSetter__"
  }

  /** What `obj[name]` finds on an object literal whose own properties are `own`. */
  datatype Property<V> = Own(value: V) | Inherited | Undefined

  function GetProperty<V>(own: map<string, V>, name: string): (r: Property<V>)
    ensures r.Own? <==> name in own
    ensures r.Own? ==> r.value == own[name]
    ensures r.Inherited? <==> name !in own && name in InheritedNames
  {
    if name in own then Own(own[name])
    else if name in InheritedNames then Inherited
    else Undefined
  }
}
