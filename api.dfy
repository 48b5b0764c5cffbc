/**
 * The gating logic of `query_api` (baby.py): whether a request is sent at
 * all, what it carries, and which answers count as an image. The HTTP
 * transport is the server's `Response`, given as an input.
 */
module Api {
  import opened Wrappers
  import opened Prompt

  const API_URL: string := "https://api-inference.huggingface.co/models/stabilityai/stable-diffusion-xl-base-1.0"

  /** The POST the script sends: the URL, the `Authorization` header and the JSON payload. */
  datatype Request = Request(url: string, authorization: string, payload: Payload)

  /** What the server answers: the status code and the raw body. */
  datatype Response = Response(status: int, content: seq<byte>)

  /** One call of `query_api`: the request it sent, if any, and the value it returned. */
  datatype Call = Call(sent: Option<Request>, result: Option<seq<byte>>)

  /** `not hf_token` in Python: no secret at all, or the empty string. */
  predicate MissingToken(token: Option<string>)
  {
    token.None? || token.value == []
  }

  /**
   * `query_api(payload)`, with `token` for the secret looked up in
   * `st.secrets` and `reply` for the answer the server would give. Without a
   * usable token nothing is sent and nothing returned; otherwise one request
   * goes out and only status 200 yields the body.
   */
  function QueryApi(token: Option<string>, payload: Payload, reply: Response): (c: Call)
    ensures c.sent.None? <==> MissingToken(token)
    ensures c.sent.Some? ==> c.sent.value == Request(API_URL, "Bearer " + token.value, payload)
    ensures c.result.Some? <==> c.sent.Some? && reply.status == 200
    ensures c.result.Some? ==> c.result.value == reply.content
  {
    if MissingToken(token) then Call(None, None)
    else
      var request := Request(API_URL, "Bearer " + token.value, payload);
      if reply.status == 200 then Call(Some(request), Some(reply.content))
      else Call(Some(request), None)
  }

  /** `if image_bytes:` — a body was returned and it is not empty. */
  predicate Delivered(c: Call)
  {
    c.result.Some? && c.result.value != []
  }

  /** A call delivers an image exactly when a token was present, the status was 200 and the body is not empty. */
  lemma DeliveredExactly(token: Option<string>, payload: Payload, reply: Response)
    ensures Delivered(QueryApi(token, payload, reply))
            <==> !MissingToken(token) && reply.status == 200 && reply.content != []
  {
  }
}
