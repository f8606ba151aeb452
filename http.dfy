/**
 * The part of an HTTP response writer the translate handler uses: a status
 * code, a header map and a body that only grows.
 */
module Http {

  const MethodPost: string := "POST"

  const StatusOK: int := 200
  const StatusBadRequest: int := 400
  const StatusMethodNotAllowed: int := 405
  const StatusInternalServerError: int := 500
  const StatusServiceUnavailable: int := 503

  /** The headers an error reply sets. */
  const ErrorHeaders: map<string, string> := map[
    "Content-Type" := "text/plain; charset=utf-8",
    "X-Content-Type-Options" := "nosniff"
  ]

  class ResponseWriter {
    var status: int
    var headers: map<string, string>
    var body: string

    /** A fresh response: the status a handler that sets none ends up with,
        no headers, no body. */
    constructor ()
      ensures status == StatusOK && headers == map[] && body == ""
    {
      status, headers, body := StatusOK, map[], "";
    }

    /** Sets one header, replacing an earlier value for the same key. */
    method SetHeader(key: string, value: string)
      modifies this
      ensures headers == old(headers)[key := value]
      ensures status == old(status) && body == old(body)
    {
      headers := headers[key := value];
    }

    /** Appends to the body. */
    method Write(s: string)
      modifies this
      ensures body == old(body) + s
      ensures status == old(status) && headers == old(headers)
    {
      body := body + s;
    }

    /** Replies with an error status and a one-line plain-text message. */
    method Error(message: string, code: int)
      modifies this
      ensures status == code && body == old(body) + message + "\n"
      ensures headers == old(headers) + ErrorHeaders
    {
      headers := headers["Content-Type" := "text/plain; charset=utf-8"];
      headers := headers["X-Content-Type-Options" := "nosniff"];
      status := code;
      body := body + message + "\n";
    }
  }
}
