/** The Messenger Platform subscribe handshake of `verify_webhook`
    (src/config.py): a GET carrying `hub.mode`, `hub.verify_token` and
    `hub.challenge` is answered 200, 403 or 400. */
module WebhookVerification {
  import opened Wrappers

  /** The three query parameters; `None` when the parameter is absent. */
  datatype HubQuery = HubQuery(mode: Option<string>, verifyToken: Option<string>, challenge: Option<string>)

  /** An HTTP reply: its status and its body (empty when none is given). */
  datatype Reply = Reply(status: int, body: string)

  const SubscribeMode: string := "subscribe"

  /** `verify_webhook`, where `expected` is the `MESSENGER_VERIFY_TOKEN`
      environment variable (`None` when unset). */
  function VerifyWebhook(q: HubQuery, expected: Option<string>): (r: Reply)
    ensures r.status == 200 || r.status == 403 || r.status == 400
    ensures r.status == 400 <==> !Truthy(q.mode) || !Truthy(q.verifyToken)
    ensures r.status == 200 <==>
      Truthy(q.mode) && Truthy(q.verifyToken) && q.mode.value == SubscribeMode && q.verifyToken == expected
    ensures r.status == 403 <==>
      Truthy(q.mode) && Truthy(q.verifyToken) && (q.mode.value != SubscribeMode || q.verifyToken != expected)
    ensures r.status == 200 ==> r.body == q.challenge.GetOr("")
    ensures r.status != 200 ==> r.body == ""
    ensures expected.None? ==> r.status != 200
  {
    if Truthy(q.mode) && Truthy(q.verifyToken) then
      if q.mode.value == SubscribeMode && q.verifyToken == expected then
        Reply(200, q.challenge.GetOr(""))
      else
        Reply(403, "")
    else
      Reply(400, "")
  }
}
