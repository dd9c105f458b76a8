/** The serverless entry point `handler(req, res)` of api/bot.js: a POST hands the
    update to the bot; any other method is refused.

    The HTTP response is an object updated in place through `res.setHeader`,
    `res.status` and `res.send`; it is modelled as a class with the fields those
    three calls write, each call a plain field update.
    Whether `bot.handleUpdate(req.body)` rejected is an input. */
module Webhook {
  import opened Wrappers

  /** The response object a serverless function writes to. */
  class ServerResponse {
    var statusCode: int
    var headers: map<string, string>
    var body: Option<string>

    /** A fresh response: status 200, no headers, nothing sent yet. */
    constructor ()
      ensures statusCode == 200 && headers == map[] && body == None
    {
      statusCode := 200;
      headers := map[];
      body := None;
    }

    /** `res.setHeader(name, value)`. */
    method SetHeader(name: string, value: string)
      modifies this
      ensures headers == old(headers)[name := value]
      ensures statusCode == old(statusCode) && body == old(body)
    {
      headers := headers[name := value];
    }

    /** `res.status(code)`; the chained call that follows is made on the same object. */
    method Status(code: int)
      modifies this
      ensures statusCode == code
      ensures headers == old(headers) && body == old(body)
    {
      statusCode := code;
    }

    /** `res.send(text)`. */
    method Send(text: string)
      modifies this
      ensures body == Some(text)
      ensures statusCode == old(statusCode) && headers == old(headers)
    {
      body := Some(text);
    }
  }

  /** The method the handler accepts; the comparison is exact (`===`). */
  const Post: string := "POST"

  /** `handler(req, res)`: POST with a successful hand-off answers 200 "OK", POST whose
      hand-off throws answers 500 "Error handling update", and every other method
      answers 405 "Method Not Allowed" with `Allow: POST`. Only the 405 path calls `setHeader`; headers the
      runtime adds itself are not modelled. */
  method Handler(requestMethod: string, updateThrows: bool, res: ServerResponse)
    modifies res
    ensures requestMethod == Post && !updateThrows ==>
      res.statusCode == 200 && res.body == Some("OK") && res.headers == old(res.headers)
    ensures requestMethod == Post && updateThrows ==>
      res.statusCode == 500 && res.body == Some("Error handling update") && res.headers == old(res.headers)
    ensures requestMethod != Post ==>
      res.statusCode == 405 && res.body == Some("Method Not Allowed")
      && res.headers == old(res.headers)["Allow" := "POST"]
  {
    if requestMethod == Post {
      if !updateThrows {
        res.Status(200);
        res.Send("OK");
        return;
      } else {
        res.Status(500);
        res.Send("Error handling update");
        return;
      }
    }
    res.SetHeader("Allow", "POST");
    res.Status(405);
    res.Send("Method Not Allowed");
  }
}
