/** The plain dicts the example functions return, in the shape of
    `ElementalResponse`: a `status` of `"success"` or `"error"`, the payload under
    `data`, an `ErrorItem` (`code`, `message`) under `error`, and the flattened
    call metadata under `meta`. */
module Responses {
  import opened Values

  /** `r[k]` for a dict `r`, `None` when `r` is not a dict or lacks `k`. */
  function Field(r: Value, k: string): Option<Value> {
    if r.Dict? then Lookup(r.entries, k) else None
  }

  /** `{"status": "success", "data": data, "meta": meta}`. */
  function SuccessDict(data: Value, meta: Value): (r: Value)
    ensures r.Dict? && |r.entries| == 3
    ensures Field(r, "status") == Some(Str("success"))
    ensures Field(r, "data") == Some(data) && Field(r, "meta") == Some(meta)
    ensures Field(r, "error") == None
  {
    DistinctKeys();
    Display3("status", Str("success"), "data", data, "meta", meta);
    DisplayMiss3("status", Str("success"), "data", data, "meta", meta, "error");
    Dict([("status", Str("success")), ("data", data), ("meta", meta)])
  }

  /** `{"status": "error", "error": {"code": code, "message": message}, "data": None, "meta": meta}`. */
  function ErrorDict(code: string, message: string, meta: Value): (r: Value)
    ensures r.Dict? && |r.entries| == 4
    ensures Field(r, "status") == Some(Str("error"))
    ensures Field(r, "data") == Some(Null) && Field(r, "meta") == Some(meta)
    ensures Field(r, "error") == Some(ErrorItem(code, message))
    ensures ErrorCode(r) == Some(Str(code)) && ErrorMessage(r) == Some(Str(message))
  {
    DistinctKeys();
    var item := ErrorItem(code, message);
    Display4("status", Str("error"), "error", item, "data", Null, "meta", meta);
    Dict([("status", Str("error")), ("error", item), ("data", Null), ("meta", meta)])
  }

  /** The `error` entry: `{"code": code, "message": message}`. */
  function ErrorItem(code: string, message: string): (e: Value)
    ensures e.Dict? && |e.entries| == 2
    ensures Field(e, "code") == Some(Str(code)) && Field(e, "message") == Some(Str(message))
  {
    assert |"code"| != |"message"|;
    Display2("code", Str(code), "message", Str(message));
    Dict([("code", Str(code)), ("message", Str(message))])
  }

  /** The response keys are distinct strings. */
  lemma DistinctKeys()
    ensures "status" != "error" && "status" != "data" && "status" != "meta"
    ensures "error" != "data" && "error" != "meta" && "data" != "meta"
  {
    assert |"status"| != |"error"| && |"status"| != |"data"| && |"error"| != |"data"|;
    assert "data"[0] != "meta"[0];
  }

  function ErrorCode(r: Value): Option<Value> {
    match Field(r, "error")
    case Some(e) => Field(e, "code")
    case None => None
  }

  function ErrorMessage(r: Value): Option<Value> {
    match Field(r, "error")
    case Some(e) => Field(e, "message")
    case None => None
  }

  /** What `ElementalResponse.model_validate` accepts: a dict whose `status` is
      `"success"` or `"error"`, whose `error`, when given and not `None`, is an
      `ErrorItem` with string `code` and `message`, and whose `meta`, when given,
      is `None` or a dict. */
  predicate IsResponse(r: Value) {
    && r.Dict?
    && (Field(r, "status") == Some(Str("success")) || Field(r, "status") == Some(Str("error")))
    && (match Field(r, "error")
        case None => true
        case Some(e) => e.Null? || (e.Dict? && StrField(e, "code") && StrField(e, "message")))
    && (match Field(r, "meta")
        case None => true
        case Some(m) => m.Null? || m.Dict?)
  }

  predicate StrField(r: Value, k: string) {
    match Field(r, k)
    case Some(v) => v.Str?
    case None => false
  }

  /** A success dict is a valid response when its metadata is `None` or a dict. */
  lemma SuccessIsResponse(data: Value, meta: Value)
    requires meta.Null? || meta.Dict?
    ensures IsResponse(SuccessDict(data, meta))
  {
  }

  /** An error dict is a valid response when its metadata is `None` or a dict. */
  lemma ErrorIsResponse(code: string, message: string, meta: Value)
    requires meta.Null? || meta.Dict?
    ensures IsResponse(ErrorDict(code, message, meta))
  {
  }
}
