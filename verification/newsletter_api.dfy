/** The newsletter endpoint (`/api/newsletter`): a `POST` action that checks
    the `email` field of the posted form and a `GET` loader that refuses.
    Each reply is a status code, a content type and a JSON envelope; the
    JSON text and the `Response` object themselves are not modelled. */
module NewsletterApi {
  import opened Common

  /** What `formData.get('email')` returns: `null` when the form has no such
      field, a string, or an uploaded file. */
  datatype FormValue = NoField | Text(text: string) | Upload

  /** The JSON body: `{ok: true}` or `{ok: false, error: ...}`. */
  datatype Envelope = Envelope(ok: bool, error: Option<string>)

  datatype Response = Response(status: int, contentType: string, body: Envelope)

  const JsonContentType := "application/json"
  const EmailRequired := "Email is required"
  const MethodNotAllowed := "Method not allowed"

  /** `Response.ok`: the status is in the range 200-299. */
  predicate IsOk(r: Response) {
    200 <= r.status <= 299
  }

  /** The `POST` action. A value that is not a string, or a string that is
      empty once trimmed, is refused with 400; any other string is accepted
      with 200. */
  function Action(email: FormValue): (r: Response)
    ensures r.contentType == JsonContentType
    ensures r.status == 200 <==> email.Text? && !Blank(email.text)
    ensures r.status == 200 ==> r.body == Envelope(true, None)
    ensures r.status != 200 ==> r.status == 400 && r.body == Envelope(false, Some(EmailRequired))
    ensures IsOk(r) <==> r.body.ok
  {
    if !email.Text? || Trim(email.text) == "" then
      Response(400, JsonContentType, Envelope(false, Some(EmailRequired)))
    else
      Response(200, JsonContentType, Envelope(true, None))
  }

  /** The `GET` loader refuses every request with 405. */
  function Loader(): (r: Response)
    ensures r.status == 405 && !IsOk(r)
    ensures r.contentType == JsonContentType
    ensures r.body == Envelope(false, Some(MethodNotAllowed))
  {
    Response(405, JsonContentType, Envelope(false, Some(MethodNotAllowed)))
  }

  /** Whitespace before and after an address, of any kind and amount on
      either side, does not change the verdict. */
  lemma PaddingIrrelevant(pre: string, email: string, post: string)
    requires Blank(pre) && Blank(post)
    ensures Action(Text(pre + email + post)).status == Action(Text(email)).status
  {
    var padded := pre + email + post;
    if Blank(email) {
      assert Blank(padded) by {
        forall i | 0 <= i < |padded| ensures IsJsWhitespace(padded[i]) {
          if i < |pre| {
            assert padded[i] == pre[i];
          } else if i < |pre| + |email| {
            assert padded[i] == email[i - |pre|];
          } else {
            assert padded[i] == post[i - |pre| - |email|];
          }
        }
      }
    } else {
      var k :| 0 <= k < |email| && !IsJsWhitespace(email[k]);
      assert padded[|pre| + k] == email[k];
    }
  }
}
