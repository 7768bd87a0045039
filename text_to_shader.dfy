/**
 * The text-to-shader panel: the guard on its "Generate Shader" button and
 * the request lifecycle that moves its three state cells (loading flag,
 * error message, shader data) from the start of a request to its end.
 * The reply of the generation service is an input; the network call and
 * JSON parsing are not modelled.
 */
module TextToShader {
  import opened Wrappers
  import opened JsString
  import opened ShaderCanvas

  const IncompleteReplyMessage := "Incomplete shader data received from the backend."
  const FailedMessage := "Failed to generate shader."
  const UnexpectedMessage := "An unexpected error occurred."

  /** The parsed body of a reply: the shader fields and an optional `error` field. */
  datatype Body = Body(shader: Payload, error: Option<string>)

  /** How the awaited part of a request ends. */
  datatype Reply =
    | Threw(message: string)           // the transport, JSON parsing, or reading a field of a `null` body threw this message
    | Responded(ok: bool, body: Body)  // a parsed reply; `ok` is true for a 2xx status

  /** The shader and error cells as a finished request leaves them. */
  datatype Settled = Settled(shaderData: Option<Payload>, error: Option<string>)

  /** `a || b` on strings: `a` when present and non-empty, `b` otherwise. */
  function OrElse(a: Option<string>, b: string): (r: string)
    ensures Truthy(a) ==> r == a.value
    ensures !Truthy(a) ==> r == b
  {
    if Truthy(a) then a.value else b
  }

  /**
   * The try block: the reply's shader data when the reply is ok and has the
   * four mandatory fields, otherwise the message of the error it throws.
   */
  function Attempt(reply: Reply): (r: Result<Payload, string>)
    ensures r.Success? <==> reply.Responded? && reply.ok && Complete(reply.body.shader)
    ensures r.Success? ==> r.value == reply.body.shader
  {
    match reply
    case Threw(message) => Failure(message)
    case Responded(ok, body) =>
      if ok then
        if Complete(body.shader) then Success(body.shader) else Failure(IncompleteReplyMessage)
      else
        Failure(OrElse(body.error, FailedMessage))
  }

  /** The catch block maps a thrown error to `err.message || 'An unexpected error occurred.'`. */
  function Settle(reply: Reply): (s: Settled)
    ensures s.shaderData.Some? <==> reply.Responded? && reply.ok && Complete(reply.body.shader)
    ensures s.shaderData.Some? ==> s.shaderData.value == reply.body.shader
    ensures s.error.Some? <==> s.shaderData.None?
    ensures s.error.Some? ==> s.error.value != []
  {
    match Attempt(reply)
    case Success(data) => Settled(Some(data), None)
    case Failure(message) => Settled(None, Some(OrElse(Some(message), UnexpectedMessage)))
  }

  /** The message shown for each way a request can fail. */
  lemma SettleMessages(reply: Reply)
    ensures reply.Responded? && reply.ok && !Complete(reply.body.shader) ==>
              Settle(reply).error == Some(IncompleteReplyMessage)
    ensures reply.Responded? && !reply.ok ==>
              Settle(reply).error == Some(if Truthy(reply.body.error) then reply.body.error.value else FailedMessage)
    ensures reply.Threw? ==>
              Settle(reply).error == Some(if reply.message != [] then reply.message else UnexpectedMessage)
  {
  }

  /** A failing reply carrying an `error` text shows that text and no shader. */
  lemma ServiceErrorShown(shader: Payload)
    ensures Settle(Responded(false, Body(shader, Some("rate limited")))) == Settled(None, Some("rate limited"))
  {
  }

  /** Shader data the panel stores always passes the canvas's mandatory-field check. */
  lemma StoredDataPassesFieldCheck(reply: Reply)
    ensures Settle(reply).shaderData.Some? ==> Sanitise(Settle(reply).shaderData.value).Success?
  {
  }

  /** `isLoading || !description.trim()`: disabled while loading or when the text is blank. */
  function ButtonDisabled(isLoading: bool, description: string): (disabled: bool)
    ensures disabled <==> isLoading || AllSpace(description)
  {
    TrimEmptyIff(description);
    isLoading || Trim(description) == []
  }

  /** The panel's state cells. */
  class ShaderPanel {
    var description: string
    var shaderData: Option<Payload>
    var error: Option<string>
    var isLoading: bool

    /** Stored shader data always has the four mandatory fields. */
    ghost predicate Valid()
      reads this
    {
      shaderData.Some? ==> Complete(shaderData.value)
    }

    constructor ()
      ensures Valid()
      ensures description == [] && shaderData == None && error == None && !isLoading
    {
      description := [];
      shaderData := None;
      error := None;
      isLoading := false;
    }

    /** The text area's change handler. */
    method SetDescription(text: string)
      requires Valid()
      modifies this
      ensures Valid()
      ensures description == text
      ensures shaderData == old(shaderData) && error == old(error) && isLoading == old(isLoading)
    {
      description := text;
    }

    /** The start of `fetchShader`: loading on, error and shader data cleared. */
    method Start()
      modifies this
      ensures Valid()
      ensures isLoading && error == None && shaderData == None
      ensures description == old(description)
    {
      isLoading := true;
      error := None;
      shaderData := None;
    }

    /** The rest of `fetchShader` once the reply is in: try, catch, and finally. */
    method Finish(reply: Reply)
      requires Valid()
      modifies this
      ensures Valid()
      ensures !isLoading
      ensures Settle(reply).shaderData.Some? ==> shaderData == Settle(reply).shaderData && error == old(error)
      ensures Settle(reply).error.Some? ==> error == Settle(reply).error && shaderData == old(shaderData)
      ensures description == old(description)
    {
      var outcome := Attempt(reply);
      match outcome {
        case Success(data) =>
          shaderData := Some(data);
        case Failure(message) =>
          error := Some(OrElse(Some(message), UnexpectedMessage));
      }
      isLoading := false;
    }

    /** A whole request: every outcome ends with loading off and exactly the settled cells. */
    method FetchShader(reply: Reply)
      modifies this
      ensures Valid()
      ensures !isLoading
      ensures shaderData == Settle(reply).shaderData && error == Settle(reply).error
      ensures description == old(description)
    {
      Start();
      Finish(reply);
    }

    /**
     * A click on the button: a disabled button ignores it; otherwise a
     * request starts (its reply arrives later, through Finish).
     */
    method Click() returns (started: bool)
      requires Valid()
      modifies this
      ensures Valid()
      ensures started <==> !old(ButtonDisabled(isLoading, description))
      ensures started ==> isLoading && error == None && shaderData == None
      ensures description == old(description)
      ensures !started ==> shaderData == old(shaderData) && error == old(error) && isLoading == old(isLoading)
    {
      started := !ButtonDisabled(isLoading, description);
      if started {
        Start();
      }
    }

    /** The canvas reports a rendering failure through the panel's error setter. */
    method ReportRenderError(message: string)
      requires Valid()
      modifies this
      ensures Valid()
      ensures error == Some(message)
      ensures shaderData == old(shaderData) && isLoading == old(isLoading) && description == old(description)
    {
      error := Some(message);
    }
  }

  /** While a request is in flight a second click changes nothing. */
  method SecondClickIgnored()
  {
    var panel := new ShaderPanel();
    panel.SetDescription("a rotating cube");
    assert !IsSpace(panel.description[0]);
    var first := panel.Click();
    assert first;
    var second := panel.Click();
    assert !second && panel.isLoading;
  }
}
