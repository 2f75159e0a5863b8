/** `ApiResponseBuilder`: response envelopes as insertion-ordered key/value lists
    (`LinkedHashMap`), with the timestamp passed in. */
module ResponseBuilder {
  import opened Wrappers

  /** A JSON-like value; `Payload` is the controller's data object, left opaque. */
  datatype Value<D> =
    | Text(text: string)
    | Number(n: int)
    | Object(fields: seq<Field<D>>)
    | Payload(data: D)

  datatype Field<D> = Field(key: string, value: Value<D>)

  /** The keys of an ordered map, in iteration order. */
  function Keys<D>(fields: seq<Field<D>>): (ks: seq<string>)
    ensures |ks| == |fields|
    ensures forall i {:trigger ks[i]} :: 0 <= i < |fields| ==> ks[i] == fields[i].key
  {
    if |fields| == 0 then [] else [fields[0].key] + Keys(fields[1..])
  }

  /** `get(key)`: the value stored under `key`. */
  function Get<D>(fields: seq<Field<D>>, key: string): Option<Value<D>>
  {
    if |fields| == 0 then None
    else if fields[0].key == key then Some(fields[0].value)
    else Get(fields[1..], key)
  }

  /** `LinkedHashMap.put`: a new key goes to the end; an existing key keeps its place and
      gets the new value. */
  function Put<D>(fields: seq<Field<D>>, key: string, value: Value<D>): (r: seq<Field<D>>)
    ensures Keys(r) == if key in Keys(fields) then Keys(fields) else Keys(fields) + [key]
    ensures Get(r, key) == Some(value)
    ensures forall k :: k != key ==> Get(r, k) == Get(fields, k)
  {
    if |fields| == 0 then [Field(key, value)]
    else if fields[0].key == key then [Field(key, value)] + fields[1..]
    else
      var rest := Put(fields[1..], key, value);
      assert Keys(fields) == [fields[0].key] + Keys(fields[1..]);
      [fields[0]] + rest
  }

  /** Putting a key that is not there yet appends it. */
  lemma {:induction false} PutNewKeyAppends<D>(fields: seq<Field<D>>, key: string, value: Value<D>)
    requires forall i :: 0 <= i < |fields| ==> fields[i].key != key
    ensures Put(fields, key, value) == fields + [Field(key, value)]
  {
    if |fields| > 0 {
      PutNewKeyAppends(fields[1..], key, value);
      assert fields == [fields[0]] + fields[1..];
    }
  }

  const TimestampKey := "timestamp"
  const StatusKey := "status"
  const MessageKey := "message"
  const DataKey := "data"

  /** Whether `key` appears at any depth of an ordered map. */
  predicate MentionsKey<D>(fields: seq<Field<D>>, key: string)
    decreases fields
  {
    exists i :: 0 <= i < |fields| &&
      (fields[i].key == key || (fields[i].value.Object? && MentionsKey(fields[i].value.fields, key)))
  }

  /** An ordered map whose own keys avoid `key` and whose nested objects never mention it. */
  lemma {:induction false} NoMention<D>(fields: seq<Field<D>>, key: string)
    requires forall i :: 0 <= i < |fields| ==> fields[i].key != key
    requires forall i :: 0 <= i < |fields| && fields[i].value.Object? ==> !MentionsKey(fields[i].value.fields, key)
    ensures !MentionsKey(fields, key)
  {
  }

  /** The three puts every envelope starts with. */
  method PutHead<D>(timestamp: string, status: int, message: string) returns (response: seq<Field<D>>)
    ensures response == [Field(TimestampKey, Text(timestamp)), Field(StatusKey, Number(status)),
                         Field(MessageKey, Text(message))]
    ensures Get(response, TimestampKey) == Some(Text(timestamp))
    ensures Get(response, StatusKey) == Some(Number(status))
    ensures Get(response, MessageKey) == Some(Text(message))
    ensures Get(response, DataKey).None?
  {
    response := [];
    PutNewKeyAppends(response, TimestampKey, Text(timestamp));
    response := Put(response, TimestampKey, Text(timestamp));
    PutNewKeyAppends(response, StatusKey, Number(status));
    response := Put(response, StatusKey, Number(status));
    PutNewKeyAppends(response, MessageKey, Text(message));
    response := Put(response, MessageKey, Text(message));
  }

  /** `buildSuccessResponse`: exactly timestamp, status, message and data, in that order, with
      the arguments stored unchanged. */
  method BuildSuccessResponse<D>(timestamp: string, status: int, message: string, data: D)
    returns (response: seq<Field<D>>)
    ensures Keys(response) == [TimestampKey, StatusKey, MessageKey, DataKey]
    ensures Get(response, TimestampKey) == Some(Text(timestamp))
    ensures Get(response, StatusKey) == Some(Number(status))
    ensures Get(response, MessageKey) == Some(Text(message))
    ensures Get(response, DataKey) == Some(Payload(data))
  {
    response := PutHead(timestamp, status, message);
    response := Put(response, DataKey, Payload(data));
  }

  /** `buildErrorResponse`: timestamp, status and message in that order, and no data. */
  method BuildErrorResponse<D>(timestamp: string, status: int, message: string)
    returns (response: seq<Field<D>>)
    ensures Keys(response) == [TimestampKey, StatusKey, MessageKey]
    ensures Get(response, TimestampKey) == Some(Text(timestamp))
    ensures Get(response, StatusKey) == Some(Number(status))
    ensures Get(response, MessageKey) == Some(Text(message))
    ensures Get(response, DataKey).None?
  {
    response := PutHead(timestamp, status, message);
  }

  const LoginStatus := 200
  const LoginMessage := "Login successful"

  /** The `user` object of a login response: id, name and email in that order. */
  method BuildProfile<D>(userId: int, userName: string, userEmail: string) returns (user: seq<Field<D>>)
    ensures user == [Field("id", Number(userId)), Field("name", Text(userName)), Field("email", Text(userEmail))]
    ensures !MentionsKey(user, "password")
  {
    user := [];
    PutNewKeyAppends(user, "id", Number(userId));
    user := Put(user, "id", Number(userId));
    PutNewKeyAppends(user, "name", Text(userName));
    user := Put(user, "name", Text(userName));
    PutNewKeyAppends(user, "email", Text(userEmail));
    user := Put(user, "email", Text(userEmail));
    NoMention(user, "password");
  }

  /** `buildLoginResponse`: status 200 and a fixed message, then data holding the token and the
      user's id, name and email, in that order; no password at any depth. */
  method BuildLoginResponse<D>(timestamp: string, token: string, userId: int, userName: string,
                               userEmail: string) returns (response: seq<Field<D>>)
    ensures Keys(response) == [TimestampKey, StatusKey, MessageKey, DataKey]
    ensures Get(response, StatusKey) == Some(Number(LoginStatus))
    ensures Get(response, MessageKey) == Some(Text(LoginMessage))
    ensures response[3].value == Object([Field("token", Text(token)), Field("user", Object(
      [Field("id", Number(userId)), Field("name", Text(userName)), Field("email", Text(userEmail))]))])
    ensures !MentionsKey(response, "password")
  {
    response := PutHead(timestamp, LoginStatus, LoginMessage);
    var data: seq<Field<D>> := [];
    PutNewKeyAppends(data, "token", Text(token));
    data := Put(data, "token", Text(token));
    var user := BuildProfile<D>(userId, userName, userEmail);
    PutNewKeyAppends(data, "user", Object(user));
    data := Put(data, "user", Object(user));
    NoMention(data, "password");
    PutNewKeyAppends(response, DataKey, Object(data));
    response := Put(response, DataKey, Object(data));
    NoMention(response, "password");
  }
}
