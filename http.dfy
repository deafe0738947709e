/** The request and response objects the dispatcher and the controllers work on. */
module Http {
  import opened Wrappers
  import opened Values

  /** What a route's pattern and constraints look at: the request method, path and full URL. */
  datatype RequestLine = RequestLine(verb: string, path: string, url: string)

  /** A request; its parameter hash is updated in place by `Binding#call`. */
  class Request {
    const line: RequestLine
    var params: Pairs

    constructor (line: RequestLine, params: Pairs)
      ensures this.line == line && this.params == params
    {
      this.line := line;
      this.params := params;
    }
  }

  /** What `response.finish` hands back to the server: status, content type, location and body parts. */
  datatype Finished = Finished(status: string, contentType: string, location: Option<string>, body: seq<string>)

  class Response {
    var status: string
    var contentType: string
    var location: Option<string>
    var body: seq<string>

    constructor (status: string)
      ensures this.status == status && contentType == "text/html" && location == None && body == []
    {
      this.status := status;
      contentType := "text/html";
      location := None;
      body := [];
    }

    /** `response.write(text)`: appends to the body and changes nothing else. */
    method Write(text: string)
      modifies this
      ensures body == old(body) + [text]
      ensures status == old(status) && contentType == old(contentType) && location == old(location)
    {
      body := body + [text];
    }

    /** `response.finish`: the status, headers and body parts as they stand. */
    function Finish(): (f: Finished)
      reads this
    {
      Finished(status, contentType, location, body)
    }
  }
}
