/**
 * The publish route: POST validates an image URL and a prompt and stores
 * them, trimmed, as a new feed record.
 */
module PublishRoute {
  import opened Wrappers
  import opened Text
  import opened Store
  import opened Http

  const UrlRequired := "imageUrl is required"
  const PromptRequired := "prompt is required"
  const UrlInvalid := "imageUrl must be a non-empty string"
  const PromptInvalid := "prompt must be a string"
  const PublishFailed := "Failed to publish image"

  /** The two properties POST reads from its JSON body. */
  datatype PublishBody = PublishBody(imageUrl: Json, prompt: Json)

  /** The trimmed fields of a record about to be created. */
  datatype Draft = Draft(imageUrl: string, prompt: string)

  /** The validation chain of POST and the trimming of the accepted fields. */
  function ValidatePublish(imageUrl: Json, prompt: Json): (r: Result<Draft, string>)
    ensures !Truthy(imageUrl) ==> r == Failure(UrlRequired)
    ensures (Truthy(imageUrl) && !Truthy(prompt)) ==> r == Failure(PromptRequired)
    ensures (Truthy(imageUrl) && Truthy(prompt) && !(imageUrl.Str? && !AllSpace(imageUrl.s))) ==>
              r == Failure(UrlInvalid)
    ensures (imageUrl.Str? && !AllSpace(imageUrl.s) && Truthy(prompt) && !prompt.Str?) ==>
              r == Failure(PromptInvalid)
    ensures r.Success? <==> imageUrl.Str? && !AllSpace(imageUrl.s) && prompt.Str? && prompt.s != []
    ensures r.Success? ==>
              && r.value == Draft(Trim(imageUrl.s), Trim(prompt.s))
              && r.value.imageUrl != []
              && RecordWellFormed(Image(0, r.value.imageUrl, r.value.prompt, 0, 0))
  {
    if !Truthy(imageUrl) then Failure(UrlRequired)
    else if !Truthy(prompt) then Failure(PromptRequired)
    else if !imageUrl.Str? || Trim(imageUrl.s) == [] then Failure(UrlInvalid)
    else if !prompt.Str? then Failure(PromptInvalid)
    else
      TrimIdempotent(imageUrl.s);
      TrimIdempotent(prompt.s);
      Success(Draft(Trim(imageUrl.s), Trim(prompt.s)))
  }

  /** A prompt of whitespace only is accepted and stored as the empty string. */
  lemma BlankPromptStoredEmpty(url: string, prompt: string)
    requires !AllSpace(url)
    requires prompt != [] && AllSpace(prompt)
    ensures ValidatePublish(Str(url), Str(prompt)) == Success(Draft(Trim(url), []))
  {
  }

  /** POST /api/publish with body {imageUrl, prompt}. body is None when the
      request body cannot be read as a JSON object; storeFails when the table
      cannot be reached. */
  method Post(store: ImageStore, body: Option<PublishBody>, storeFails: bool) returns (resp: Response)
    requires store.Valid()
    modifies store
    ensures store.Valid()
    ensures resp.status != 201 ==>
              && store.images == old(store.images)
              && store.nextId == old(store.nextId) && store.clock == old(store.clock)
    ensures body.None? ==> resp == Error(500, PublishFailed)
    ensures body.Some? ==>
              match ValidatePublish(body.value.imageUrl, body.value.prompt)
              case Failure(e) => resp == Error(400, e)
              case Success(d) =>
                if storeFails then resp == Error(500, PublishFailed)
                else
                  var img := Image(old(store.nextId), d.imageUrl, d.prompt, 0, old(store.clock));
                  && resp == Response(201, ImageBody(img))
                  && store.images == old(store.images) + [img]
                  && Newest(store.images)[0] == img
    ensures WellFormed(old(store.images)) ==> WellFormed(store.images)
  {
    if body.None? {
      return Error(500, PublishFailed);
    }
    var check := ValidatePublish(body.value.imageUrl, body.value.prompt);
    if check.Failure? {
      return Error(400, check.error);
    }
    var d := check.value;
    if storeFails {
      return Error(500, PublishFailed);
    }
    ghost var before := store.images;
    var img := store.Create(d.imageUrl, d.prompt);
    resp := Response(201, ImageBody(img));
    if WellFormed(before) {
      AppendKeepsWellFormed(before, img);
    }
  }
}
