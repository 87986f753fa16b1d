/** Requests, responses and the network, at the level the worker uses them:
    a request is its URL, a response is opaque apart from its status, and the
    network is an oracle that answers or fails. */
module Http {
  import opened Outcomes

  /** The key a request is stored and matched under (its URL). */
  type Request = string

  /** A response; only the status matters to the worker (through `addAll`). */
  datatype Response = Response(status: nat, body: seq<bv8>)

  /** The reason `fetch` rejects: no response arrived at all. */
  datatype NetworkError = NetworkError(request: Request)

  /** An "ok status" in the sense of the Fetch standard: 200 to 299. */
  predicate IsOk(r: Response)
  {
    200 <= r.status <= 299
  }

  /** The network as seen from the worker. `serve` is what the network answers
      right now (a request not in it fails, as when the device is offline);
      `log` records every request sent, in order. */
  class Network {
    var serve: map<Request, Response>
    var log: seq<Request>

    constructor (serve: map<Request, Response>)
      ensures this.serve == serve && log == []
    {
      this.serve := serve;
      log := [];
    }

    /** What `fetch(request)` settles with, given the current network. */
    function Answer(request: Request): (r: Result<Response, NetworkError>)
      reads this
      ensures r.Success? <==> request in serve
      ensures r.Success? ==> r.value == serve[request]
      ensures r.Failure? ==> r.error.request == request
    {
      if request in serve then Success(serve[request]) else Failure(NetworkError(request))
    }

    /** `fetch(request)`: sends the request once and returns its answer. */
    method Fetch(request: Request) returns (r: Result<Response, NetworkError>)
      modifies this`log
      ensures log == old(log) + [request]
      ensures r == Answer(request)
    {
      log := log + [request];
      r := Answer(request);
    }
  }
}
