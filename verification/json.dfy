/** The decoded body of a chat-completion response and the lookup
    `result["choices"][0]["message"]["content"]` performed by `log_success`. */
module Json {
  import opened Wrappers

  /** A JSON document as Python's decoder returns it (objects become dicts,
      arrays become lists). Numbers are kept as integers. */
  datatype Json =
    | JNull
    | JBool(b: bool)
    | JNumber(n: int)
    | JString(s: string)
    | JArray(items: seq<Json>)
    | JObject(fields: map<string, Json>)

  /** Python's `v[key]` with a string key: only a dict answers; a missing key
      (KeyError) and any other kind of value (TypeError) give None. */
  function Member(v: Json, key: string): Option<Json>
  {
    if v.JObject? && key in v.fields then Some(v.fields[key]) else None
  }

  /** Python's `v[i]` with an integer index: a list yields its element, a string
      yields a one-character string, a dict has no integer keys after decoding
      (KeyError) and the other kinds are not subscriptable (TypeError). */
  function Element(v: Json, i: nat): Option<Json>
  {
    match v
    case JArray(items) => if i < |items| then Some(items[i]) else None
    case JString(s) => if i < |s| then Some(JString([s[i]])) else None
    case _ => None
  }

  /** The shape of a usable reply, stated field by field:
      an object whose "choices" is a non-empty array whose first element is an
      object whose "message" is an object holding "content". */
  predicate HasReply(body: Json)
  {
    && body.JObject?
    && "choices" in body.fields
    && body.fields["choices"].JArray?
    && |body.fields["choices"].items| > 0
    && body.fields["choices"].items[0].JObject?
    && "message" in body.fields["choices"].items[0].fields
    && body.fields["choices"].items[0].fields["message"].JObject?
    && "content" in body.fields["choices"].items[0].fields["message"].fields
  }

  /** The answer a usable reply carries. */
  function ReplyContent(body: Json): Json
    requires HasReply(body)
  {
    body.fields["choices"].items[0].fields["message"].fields["content"]
  }

  /** `result["choices"][0]["message"]["content"]` evaluated step by step with
      Python's subscript rules; None wherever Python would raise. The lookup
      succeeds exactly on the replies of the documented shape, whatever kind of
      value "content" holds. */
  function Content(body: Json): (r: Option<Json>)
    ensures r.Some? <==> HasReply(body)
    ensures r.Some? ==> r.value == ReplyContent(body)
  {
    match Member(body, "choices")
    case None => None
    case Some(choices) =>
      match Element(choices, 0)
      case None => None
      case Some(first) =>
        match Member(first, "message")
        case None => None
        case Some(message) => Member(message, "content")
  }

  /** A well-formed reply `{"choices":[{"message":{"content":"hi"}}]}` yields "hi". */
  lemma WellFormedReplyYieldsContent()
    ensures Content(JObject(map["choices" := JArray([JObject(map["message" :=
              JObject(map["content" := JString("hi")])])])])) == Some(JString("hi"))
  {
  }

  /** A reply without "choices" yields nothing: there is no placeholder answer. */
  lemma MissingChoicesYieldsNothing(fields: map<string, Json>)
    requires "choices" !in fields
    ensures Content(JObject(fields)) == None
  {
  }

  /** A string in place of the "choices" array is indexed character-wise by
      Python, but the character has no "message", so the lookup still fails. */
  lemma StringChoicesYieldNothing(s: string)
    ensures Content(JObject(map["choices" := JString(s)])) == None
  {
  }
}
