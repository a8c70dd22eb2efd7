/** Construction of the push payload from a notification record
    (the `payload` object of `sendPushNotification`). */
module Payloads {
  import opened Options

  /** A string-valued field of the record as JavaScript reads it:
      `None` stands for `undefined` or `null`. */
  type Field = Option<string>

  /** JavaScript truthiness of a string field: absent and "" are falsy. */
  predicate Truthy(f: Field)
  {
    f.Some? && f.value != ""
  }

  /** The value of `f || fallback`. */
  function OrElse(f: Field, fallback: string): string
  {
    if Truthy(f) then f.value else fallback
  }

  /** Title used when the record has no (truthy) title. */
  const DefaultTitle: string := "Tasker"

  /** The fixed keys of the data map. */
  const NotificationIdKey: string := "notificationId"
  const TypeKey: string := "type"
  const ActionUrlKey: string := "actionUrl"

  /** A notification record as stored under `users/{userId}/notifications/{id}`.
      `kind` is the record's `type` field; `extras` is its open-ended `data`
      map (an absent `data` spreads nothing and is the empty map). */
  datatype NotificationRecord = NotificationRecord(
    title: Field,
    body: Field,
    imageUrl: Field,
    kind: Field,
    actionUrl: Field,
    extras: map<string, string>)

  /** The display part of the push: `imageUrl` is a key that may be missing. */
  datatype Display = Display(title: string, body: string, imageUrl: Option<string>)

  datatype Payload = Payload(notification: Display, data: map<string, string>)

  /** The data map before the record's extras are spread into it. */
  function FixedData(id: string, rec: NotificationRecord): map<string, string>
  {
    map[NotificationIdKey := id, TypeKey := OrElse(rec.kind, ""), ActionUrlKey := OrElse(rec.actionUrl, "")]
  }

  /** The payload sent for record `rec` whose document id is `id`. */
  function BuildPayload(id: string, rec: NotificationRecord): (p: Payload)
    ensures Truthy(rec.title) ==> p.notification.title == rec.title.value
    ensures !Truthy(rec.title) ==> p.notification.title == DefaultTitle
    ensures Truthy(rec.body) ==> p.notification.body == rec.body.value
    ensures !Truthy(rec.body) ==> p.notification.body == ""
    ensures p.notification.imageUrl.Some? <==> Truthy(rec.imageUrl)
    ensures p.notification.imageUrl.Some? ==> p.notification.imageUrl == rec.imageUrl
    ensures p.data.Keys == {NotificationIdKey, TypeKey, ActionUrlKey} + rec.extras.Keys
    ensures forall k :: k in rec.extras ==> p.data[k] == rec.extras[k]
    ensures NotificationIdKey !in rec.extras ==> p.data[NotificationIdKey] == id
    ensures TypeKey !in rec.extras ==> p.data[TypeKey] == (if Truthy(rec.kind) then rec.kind.value else "")
    ensures ActionUrlKey !in rec.extras ==> p.data[ActionUrlKey] == (if Truthy(rec.actionUrl) then rec.actionUrl.value else "")
  {
    var image := if Truthy(rec.imageUrl) then rec.imageUrl else None;
    Payload(
      Display(OrElse(rec.title, DefaultTitle), OrElse(rec.body, ""), image),
      FixedData(id, rec) + rec.extras)
  }

  /** The pushed title is never empty, whatever the record holds. */
  lemma TitleNeverEmpty(id: string, rec: NotificationRecord)
    ensures BuildPayload(id, rec).notification.title != ""
  {
  }

  /** The document id reaches the data map only when no extra replaces it: an
      extra named `notificationId` always wins over the id. */
  lemma ExtrasOverrideFixedKeys(id: string, rec: NotificationRecord)
    ensures BuildPayload(id, rec).data[NotificationIdKey] == id
            <==> NotificationIdKey !in rec.extras || rec.extras[NotificationIdKey] == id
    ensures NotificationIdKey in rec.extras ==> BuildPayload(id, rec).data[NotificationIdKey] == rec.extras[NotificationIdKey]
  {
  }

  /** Only truthiness matters: replacing any falsy field by an absent one
      (or by "") leaves the payload unchanged. */
  lemma FalsyFieldsAreInterchangeable(id: string, rec: NotificationRecord, other: NotificationRecord)
    requires Truthy(rec.title) <==> Truthy(other.title)
    requires Truthy(rec.title) ==> rec.title == other.title
    requires Truthy(rec.body) <==> Truthy(other.body)
    requires Truthy(rec.body) ==> rec.body == other.body
    requires Truthy(rec.imageUrl) <==> Truthy(other.imageUrl)
    requires Truthy(rec.imageUrl) ==> rec.imageUrl == other.imageUrl
    requires Truthy(rec.kind) <==> Truthy(other.kind)
    requires Truthy(rec.kind) ==> rec.kind == other.kind
    requires Truthy(rec.actionUrl) <==> Truthy(other.actionUrl)
    requires Truthy(rec.actionUrl) ==> rec.actionUrl == other.actionUrl
    requires rec.extras == other.extras
    ensures BuildPayload(id, rec) == BuildPayload(id, other)
  {
  }
}
