/**
 * The DNS-over-HTTPS request handler: decode the query from a GET or POST
 * request (section 4.1 of RFC 8484), answer NXDOMAIN for a denylisted name,
 * otherwise forward the question to the resolver, and map every outcome to an
 * HTTP response.
 */
module Responder {
  import opened Wrappers
  import opened Dns
  import DomainName

  datatype Method = Get | Post | Other(name: string)

  /** An HTTP body as the Lambda runtime distinguishes it. */
  datatype Body = Empty | Text(text: string) | Binary(bytes: seq<byte>)

  datatype Request = Request(verb: Method, uri: string, body: Body)

  /** Status, the Content-Type header when one is set, and the body. */
  datatype HttpResponse = HttpResponse(status: nat, contentType: Option<string>, body: Body)

  /** Where the handler panics instead of answering. */
  datatype PanicSite = NoQuestion | SerializeFailed

  /** What an invocation produces: an HTTP response, or a panic of the handler. */
  datatype Reply = Sent(response: HttpResponse) | Panicked(site: PanicSite)

  /**
   * A decoding failure: a bad request, whose reason is shown to the client,
   * or any other error, which the handler cannot classify and reports as 500.
   */
  datatype DecodeError = BadRequest(reason: string) | Internal

  /** The resolver's answer to one lookup. */
  datatype Lookup = Found(records: seq<Record>) | NoRecordsFound | Proto | OtherError

  /**
   * The foreign codecs the handler calls, each `None` where the library
   * returns an error: URL parsing followed by the decoded query pairs,
   * unpadded base64url decoding, and DNS wire decoding and encoding.
   */
  datatype Codec = Codec(
    queryPairs: string -> Option<seq<(string, string)>>,
    base64UrlDecode: string -> Option<seq<byte>>,
    fromBytes: seq<byte> -> Option<Message>,
    toBytes: Message -> Option<seq<byte>>)

  /** The upstream resolver, asked for a name and a record type. */
  type Resolver = (string, u16) -> Lookup

  const OK: nat := 200
  const BAD_REQUEST: nat := 400
  const METHOD_NOT_ALLOWED: nat := 405
  const INTERNAL_SERVER_ERROR: nat := 500

  const DnsMessageType: string := "application/dns-message"
  const BadRequestPrefix: string := "Bad request: "
  const MissingDnsParameter: string := "Missing 'dns' query string parameter"
  const InvalidDnsMessage: string := "Invalid DNS message"
  const EmptyBodyReason: string := "Empty body"
  const TextBodyReason: string := "Text body"

  /** `i` is the position of the first pair named `key`. */
  predicate FirstKeyAt(pairs: seq<(string, string)>, key: string, i: int)
  {
    0 <= i < |pairs| && pairs[i].0 == key && forall j :: 0 <= j < i ==> pairs[j].0 != key
  }

  /** The value of the first pair named `key`, as `Iterator::find` over the query pairs. */
  function FirstValue(pairs: seq<(string, string)>, key: string): (v: Option<string>)
    ensures v.None? <==> forall i :: 0 <= i < |pairs| ==> pairs[i].0 != key
    ensures v.Some? ==> exists i :: FirstKeyAt(pairs, key, i) && pairs[i].1 == v.value
  {
    if |pairs| == 0 then None
    else if pairs[0].0 == key then
      assert FirstKeyAt(pairs, key, 0);
      Some(pairs[0].1)
    else
      var v := FirstValue(pairs[1..], key);
      assert v.Some? ==> exists i :: FirstKeyAt(pairs, key, i) && pairs[i].1 == v.value by {
        if v.Some? {
          var i :| FirstKeyAt(pairs[1..], key, i) && pairs[1..][i].1 == v.value;
          assert pairs[i + 1] == pairs[1..][i];
          forall j | 0 <= j < i + 1 ensures pairs[j].0 != key {
            if j > 0 {
              assert pairs[j] == pairs[1..][j - 1];
            }
          }
          assert FirstKeyAt(pairs, key, i + 1);
        }
      }
      v
  }

  /** Wire decoding of a payload; a parse error is a bad request. */
  function ParsePayload(payload: seq<byte>, codec: Codec): (r: Result<Message, DecodeError>)
    ensures r.Success? <==> codec.fromBytes(payload).Some?
    ensures r.Success? ==> r.value == codec.fromBytes(payload).value
    ensures r.Failure? ==> r.error == BadRequest(InvalidDnsMessage)
  {
    match codec.fromBytes(payload)
    case None => Failure(BadRequest(InvalidDnsMessage))
    case Some(message) => Success(message)
  }

  /** The query of a GET request: the base64url `dns` query parameter. */
  function MessageFromGet(uri: string, codec: Codec): (r: Result<Message, DecodeError>)
    ensures r == Failure(Internal) <==> codec.queryPairs(uri).None?
    ensures r == Failure(BadRequest(MissingDnsParameter)) <==>
      codec.queryPairs(uri).Some? && forall i :: 0 <= i < |codec.queryPairs(uri).value| ==> codec.queryPairs(uri).value[i].0 != "dns"
    ensures r.Failure? ==> r.error in {Internal, BadRequest(MissingDnsParameter), BadRequest(InvalidDnsMessage)}
    ensures r.Success? <==>
      && codec.queryPairs(uri).Some?
      && FirstValue(codec.queryPairs(uri).value, "dns").Some?
      && codec.base64UrlDecode(FirstValue(codec.queryPairs(uri).value, "dns").value).Some?
      && codec.fromBytes(codec.base64UrlDecode(FirstValue(codec.queryPairs(uri).value, "dns").value).value).Some?
    ensures r.Success? ==>
      r.value == codec.fromBytes(codec.base64UrlDecode(FirstValue(codec.queryPairs(uri).value, "dns").value).value).value
  {
    match codec.queryPairs(uri)
    case None => Failure(Internal)
    case Some(pairs) =>
      match FirstValue(pairs, "dns")
      case None => Failure(BadRequest(MissingDnsParameter))
      case Some(encoded) =>
        match codec.base64UrlDecode(encoded)
        case None => Failure(BadRequest(InvalidDnsMessage))
        case Some(payload) => ParsePayload(payload, codec)
  }

  /** The query of a POST request: a binary body holding the wire message. */
  function MessageFromPost(body: Body, codec: Codec): (r: Result<Message, DecodeError>)
    ensures body.Empty? ==> r == Failure(BadRequest(EmptyBodyReason))
    ensures body.Text? ==> r == Failure(BadRequest(TextBodyReason))
    ensures r.Success? <==> body.Binary? && codec.fromBytes(body.bytes).Some?
    ensures r.Success? ==> r.value == codec.fromBytes(body.bytes).value
    ensures body.Binary? && codec.fromBytes(body.bytes).None? ==> r == Failure(BadRequest(InvalidDnsMessage))
    ensures r.Failure? ==> r.error.BadRequest?
  {
    match body
    case Empty => Failure(BadRequest(EmptyBodyReason))
    case Text(_) => Failure(BadRequest(TextBodyReason))
    case Binary(data) => ParsePayload(data, codec)
  }

  /** The decoder for the request's method; only GET and POST have one. */
  function DecodeRequest(req: Request, codec: Codec): (r: Result<Message, DecodeError>)
    requires req.verb.Get? || req.verb.Post?
    ensures req.verb.Get? ==> r == MessageFromGet(req.uri, codec)
    ensures req.verb.Post? ==> r == MessageFromPost(req.body, codec)
    ensures r.Success? ==> exists payload :: codec.fromBytes(payload) == Some(r.value)
    ensures req.verb.Post? ==> (r.Failure? ==> r.error.BadRequest?)
  {
    if req.verb.Get? then
      var r := MessageFromGet(req.uri, codec);
      assert r.Success? ==> codec.fromBytes(codec.base64UrlDecode(FirstValue(codec.queryPairs(req.uri).value, "dns").value).value) == Some(r.value);
      r
    else
      var r := MessageFromPost(req.body, codec);
      assert r.Success? ==> codec.fromBytes(req.body.bytes) == Some(r.value);
      r
  }

  /** `name` is the denylist entry `h` in query form: `h` with a root dot added, or `h` itself when it does not end in one. */
  predicate IsDenylistName(name: string, h: string)
  {
    name == h + "." || (name == h && !(|h| > 0 && h[|h| - 1] == '.'))
  }

  /** The first question's name, without its trailing root dot, is on the denylist. */
  function Blocked(query: Message, hosts: set<string>): (b: bool)
    requires |query.queries| > 0
    ensures b <==> exists h :: h in hosts && IsDenylistName(query.queries[0].name, h)
  {
    var name := query.queries[0].name;
    assert DomainName.StripTrailingDot(name) in hosts ==> IsDenylistName(name, DomainName.StripTrailingDot(name));
    assert forall h :: IsDenylistName(name, h) ==> h == DomainName.StripTrailingDot(name) by {
      forall h | IsDenylistName(name, h) ensures h == DomainName.StripTrailingDot(name) {
        if name == h + "." {
          assert name[..|h|] == h;
        }
      }
    }
    DomainName.StripTrailingDot(name) in hosts
  }

  /** The outcome of answering a decoded query. */
  datatype Synthesis = Built(message: Message) | ResolverFailed

  /**
   * The response message for a query with at least one question: the query
   * marked as a response with recursion available, then either NXDOMAIN or the
   * resolver's records.
   */
  function Synthesize(query: Message, hosts: set<string>, resolver: Resolver): (s: Synthesis)
    requires |query.queries| > 0
    ensures s.Built? ==>
      && s.message.id == query.id
      && s.message.queries == query.queries
      && s.message.msgType == Response
      && s.message.recursionAvailable
    ensures Blocked(query, hosts) ==>
      s.Built? && s.message.rcode == NXDOMAIN && s.message.answers == query.answers
    ensures !Blocked(query, hosts) ==>
      match resolver(query.queries[0].name, query.queries[0].qtype)
      case Found(records) =>
        s.Built? && s.message.rcode == query.rcode && s.message.answers == query.answers + records
      case NoRecordsFound =>
        s.Built? && s.message.rcode == NXDOMAIN && s.message.answers == query.answers
      case Proto =>
        s.Built? && s.message.rcode == NXDOMAIN && s.message.answers == query.answers
      case OtherError =>
        s.ResolverFailed?
  {
    var question := query.queries[0];
    var response := query.(msgType := Response, recursionAvailable := true);
    if Blocked(query, hosts) then
      Built(response.(rcode := NXDOMAIN))
    else
      match resolver(question.name, question.qtype)
      case Found(records) => Built(response.(answers := query.answers + records))
      case NoRecordsFound => Built(response.(rcode := NXDOMAIN))
      case Proto => Built(response.(rcode := NXDOMAIN))
      case OtherError => ResolverFailed
  }

  /** The handler: one request in, one HTTP response (or a panic) out. */
  function Respond(req: Request, hosts: set<string>, codec: Codec, resolver: Resolver): (r: Reply)
    ensures !(req.verb.Get? || req.verb.Post?) ==> r == Sent(HttpResponse(METHOD_NOT_ALLOWED, None, Empty))
    ensures r.Sent? ==> r.response.status in {OK, BAD_REQUEST, METHOD_NOT_ALLOWED, INTERNAL_SERVER_ERROR}
    ensures r.Sent? ==> (r.response.status == OK <==> r.response.contentType == Some(DnsMessageType))
    ensures r.Sent? && r.response.status == OK ==> r.response.body.Binary?
    ensures r.Sent? && r.response.status == BAD_REQUEST ==>
      r.response.body.Text? && BadRequestPrefix <= r.response.body.text
    ensures r.Sent? && r.response.status in {METHOD_NOT_ALLOWED, INTERNAL_SERVER_ERROR} ==> r.response.body == Empty
  {
    if !(req.verb.Get? || req.verb.Post?) then
      Sent(HttpResponse(METHOD_NOT_ALLOWED, None, Empty))
    else
      match DecodeRequest(req, codec)
      case Failure(BadRequest(reason)) => Sent(HttpResponse(BAD_REQUEST, None, Text(BadRequestPrefix + reason)))
      case Failure(Internal) => Sent(HttpResponse(INTERNAL_SERVER_ERROR, None, Empty))
      case Success(query) =>
        if |query.queries| == 0 then Panicked(NoQuestion)
        else
          match Synthesize(query, hosts, resolver)
          case ResolverFailed => Sent(HttpResponse(INTERNAL_SERVER_ERROR, None, Empty))
          case Built(response) =>
            match codec.toBytes(response)
            case None => Panicked(SerializeFailed)
            case Some(bytes) => Sent(HttpResponse(OK, Some(DnsMessageType), Binary(bytes)))
  }

  // ---------------------------------------------------------------------------
  // Properties of the handler

  /** Any method but GET and POST is refused with 405 before anything is decoded or looked up. */
  lemma MethodNotAllowed(req: Request, hosts: set<string>, codec: Codec, resolver: Resolver,
                         hosts': set<string>, codec': Codec, resolver': Resolver)
    requires !req.verb.Get? && !req.verb.Post?
    ensures Respond(req, hosts, codec, resolver) == Respond(req, hosts', codec', resolver')
    ensures Respond(req, hosts, codec, resolver) == Sent(HttpResponse(405, None, Empty))
  {
  }

  /** A URI the URL parser rejects is not classified as a bad request: the client sees 500. */
  lemma GetUnparsableUri(req: Request, hosts: set<string>, codec: Codec, resolver: Resolver)
    requires req.verb.Get? && codec.queryPairs(req.uri).None?
    ensures Respond(req, hosts, codec, resolver) == Sent(HttpResponse(500, None, Empty))
  {
  }

  /** A GET without a `dns` query parameter is a bad request that names the parameter. */
  lemma GetWithoutDnsParameter(req: Request, hosts: set<string>, codec: Codec, resolver: Resolver)
    requires req.verb.Get? && codec.queryPairs(req.uri).Some?
    requires forall i :: 0 <= i < |codec.queryPairs(req.uri).value| ==> codec.queryPairs(req.uri).value[i].0 != "dns"
    ensures Respond(req, hosts, codec, resolver) ==
      Sent(HttpResponse(400, None, Text(BadRequestPrefix + MissingDnsParameter)))
  {
    assert MessageFromGet(req.uri, codec) == Failure(BadRequest(MissingDnsParameter));
  }

  /** A `dns` parameter that is not base64url, or whose bytes are not a DNS message, is a bad request. */
  lemma GetWithInvalidPayload(req: Request, hosts: set<string>, codec: Codec, resolver: Resolver, encoded: string)
    requires req.verb.Get? && codec.queryPairs(req.uri).Some?
    requires FirstValue(codec.queryPairs(req.uri).value, "dns") == Some(encoded)
    requires codec.base64UrlDecode(encoded).None? || codec.fromBytes(codec.base64UrlDecode(encoded).value).None?
    ensures Respond(req, hosts, codec, resolver) == Sent(HttpResponse(400, None, Text(BadRequestPrefix + InvalidDnsMessage)))
  {
    assert MessageFromGet(req.uri, codec) == Failure(BadRequest(InvalidDnsMessage));
  }

  /** The three ways a POST request fails to decode, and what the client sees for each. */
  lemma PostDecodeFailures(req: Request, hosts: set<string>, codec: Codec, resolver: Resolver)
    requires req.verb.Post?
    ensures req.body.Empty? ==>
      Respond(req, hosts, codec, resolver) == Sent(HttpResponse(400, None, Text(BadRequestPrefix + EmptyBodyReason)))
    ensures req.body.Text? ==>
      Respond(req, hosts, codec, resolver) == Sent(HttpResponse(400, None, Text(BadRequestPrefix + TextBodyReason)))
    ensures req.body.Binary? && codec.fromBytes(req.body.bytes).None? ==>
      Respond(req, hosts, codec, resolver) == Sent(HttpResponse(400, None, Text(BadRequestPrefix + InvalidDnsMessage)))
  {
  }

  /**
   * Both transports are one: a GET whose `dns` parameter decodes to some bytes
   * is answered exactly as a POST of those bytes.
   */
  lemma GetAndPostAgree(get: Request, post: Request, hosts: set<string>, codec: Codec, resolver: Resolver)
    requires get.verb.Get? && post.verb.Post? && post.body.Binary?
    requires codec.queryPairs(get.uri).Some?
    requires FirstValue(codec.queryPairs(get.uri).value, "dns").Some?
    requires codec.base64UrlDecode(FirstValue(codec.queryPairs(get.uri).value, "dns").value) == Some(post.body.bytes)
    ensures Respond(get, hosts, codec, resolver) == Respond(post, hosts, codec, resolver)
  {
  }

  /** A decoded query without questions crashes the handler: only the first question is read, and it must exist. */
  lemma EmptyQuestionPanics(req: Request, hosts: set<string>, codec: Codec, resolver: Resolver)
    requires req.verb.Get? || req.verb.Post?
    requires DecodeRequest(req, codec).Success? && |DecodeRequest(req, codec).value.queries| == 0
    ensures Respond(req, hosts, codec, resolver) == Panicked(NoQuestion)
  {
  }

  /**
   * Every 200 carries the encoding of a response to the decoded query: same
   * transaction id and questions, QR set to response, RA set.
   */
  lemma OkCarriesResponse(req: Request, hosts: set<string>, codec: Codec, resolver: Resolver)
    returns (query: Message, response: Message)
    requires Respond(req, hosts, codec, resolver).Sent? && Respond(req, hosts, codec, resolver).response.status == OK
    ensures req.verb.Get? || req.verb.Post?
    ensures DecodeRequest(req, codec) == Success(query)
    ensures codec.toBytes(response) == Some(Respond(req, hosts, codec, resolver).response.body.bytes)
    ensures response.id == query.id && response.queries == query.queries
    ensures response.msgType == Response && response.recursionAvailable
  {
    query := DecodeRequest(req, codec).value;
    response := Synthesize(query, hosts, resolver).message;
  }

  /** A query for a denylisted name is answered NXDOMAIN with no new answers, whatever the resolver would say. */
  lemma DenylistedNameIsNxdomain(query: Message, hosts: set<string>, resolver: Resolver, resolver': Resolver)
    requires |query.queries| > 0 && Blocked(query, hosts)
    ensures Synthesize(query, hosts, resolver) == Synthesize(query, hosts, resolver')
    ensures Synthesize(query, hosts, resolver).Built?
    ensures Synthesize(query, hosts, resolver).message.rcode == NXDOMAIN
    ensures Synthesize(query, hosts, resolver).message.answers == query.answers
  {
  }

  /**
   * The resolver is asked once, for the first question's name exactly as
   * decoded (trailing dot included) and its type: resolvers that agree on that
   * one lookup yield the same outcome.
   */
  lemma OneLookupDecides(query: Message, hosts: set<string>, resolver: Resolver, resolver': Resolver)
    requires |query.queries| > 0
    requires resolver(query.queries[0].name, query.queries[0].qtype) == resolver'(query.queries[0].name, query.queries[0].qtype)
    ensures Synthesize(query, hosts, resolver) == Synthesize(query, hosts, resolver')
  {
  }

  /** A denylist hit and a name the resolver does not know produce the same message. */
  lemma BlockedLooksLikeNotFound(query: Message, hosts: set<string>, resolver: Resolver)
    requires |query.queries| > 0 && Blocked(query, hosts)
    requires resolver(query.queries[0].name, query.queries[0].qtype).NoRecordsFound?
    ensures Synthesize(query, hosts, resolver) == Synthesize(query, {}, resolver)
  {
  }

  /** Questions after the first are carried along but never consulted. */
  lemma OnlyFirstQuestionMatters(query: Message, extra: seq<Question>, hosts: set<string>, resolver: Resolver)
    requires |query.queries| > 0
    ensures var longer := query.(queries := query.queries + extra);
      match (Synthesize(query, hosts, resolver), Synthesize(longer, hosts, resolver))
      case (Built(m), Built(m')) => m' == m.(queries := longer.queries)
      case (ResolverFailed, ResolverFailed) => true
      case _ => false
  {
    var longer := query.(queries := query.queries + extra);
    assert longer.queries[0] == query.queries[0];
  }

  /** Resolver failures other than "no records" and "protocol error" become 500 with an empty body. */
  lemma ResolverErrorIs500(req: Request, hosts: set<string>, codec: Codec, resolver: Resolver)
    requires req.verb.Get? || req.verb.Post?
    requires DecodeRequest(req, codec).Success?
    requires var q := DecodeRequest(req, codec).value;
      |q.queries| > 0 && !Blocked(q, hosts) && resolver(q.queries[0].name, q.queries[0].qtype).OtherError?
    ensures Respond(req, hosts, codec, resolver) == Sent(HttpResponse(500, None, Empty))
  {
  }

  /**
   * A decoded query for a denylisted name is answered 200 with the encoding
   * of the query turned into an NXDOMAIN response, its answers untouched.
   */
  lemma DenylistedQueryAnswered(req: Request, hosts: set<string>, codec: Codec, resolver: Resolver, bytes: seq<byte>)
    requires req.verb.Get? || req.verb.Post?
    requires DecodeRequest(req, codec).Success?
    requires var q := DecodeRequest(req, codec).value;
      && |q.queries| > 0
      && Blocked(q, hosts)
      && codec.toBytes(q.(msgType := Response, recursionAvailable := true, rcode := NXDOMAIN)) == Some(bytes)
    ensures Respond(req, hosts, codec, resolver) == Sent(HttpResponse(200, Some("application/dns-message"), Binary(bytes)))
  {
  }

  /**
   * A decoded query for a name off the denylist that the resolver answers is
   * answered 200 with the encoding of the query turned into a response whose
   * answers gain the resolver's records, in the resolver's order.
   */
  lemma ResolvedQueryAnswered(req: Request, hosts: set<string>, codec: Codec, resolver: Resolver,
                              records: seq<Record>, bytes: seq<byte>)
    requires req.verb.Get? || req.verb.Post?
    requires DecodeRequest(req, codec).Success?
    requires var q := DecodeRequest(req, codec).value;
      && |q.queries| > 0
      && !Blocked(q, hosts)
      && resolver(q.queries[0].name, q.queries[0].qtype) == Found(records)
      && codec.toBytes(q.(msgType := Response, recursionAvailable := true, answers := q.answers + records)) == Some(bytes)
    ensures Respond(req, hosts, codec, resolver) == Sent(HttpResponse(200, Some("application/dns-message"), Binary(bytes)))
  {
  }

  /**
   * Every decoded query that yields a response message is answered 200 with
   * that message's encoding, whichever way the message was built.
   */
  lemma AnsweredQueryIsOk(req: Request, hosts: set<string>, codec: Codec, resolver: Resolver, bytes: seq<byte>)
    requires req.verb.Get? || req.verb.Post?
    requires DecodeRequest(req, codec).Success?
    requires var q := DecodeRequest(req, codec).value;
      && |q.queries| > 0
      && Synthesize(q, hosts, resolver).Built?
      && codec.toBytes(Synthesize(q, hosts, resolver).message) == Some(bytes)
    ensures Respond(req, hosts, codec, resolver) == Sent(HttpResponse(OK, Some(DnsMessageType), Binary(bytes)))
  {
  }

  /**
   * A name off the denylist for which the resolver finds no records, or hits
   * a protocol error, is answered 200 with the encoding of the query turned
   * into an NXDOMAIN response, its answers untouched.
   */
  lemma UnresolvedQueryAnswered(req: Request, hosts: set<string>, codec: Codec, resolver: Resolver, bytes: seq<byte>)
    requires req.verb.Get? || req.verb.Post?
    requires DecodeRequest(req, codec).Success?
    requires var q := DecodeRequest(req, codec).value;
      && |q.queries| > 0
      && !Blocked(q, hosts)
      && resolver(q.queries[0].name, q.queries[0].qtype) in {NoRecordsFound, Proto}
      && codec.toBytes(q.(msgType := Response, recursionAvailable := true, rcode := NXDOMAIN)) == Some(bytes)
    ensures Respond(req, hosts, codec, resolver) == Sent(HttpResponse(OK, Some(DnsMessageType), Binary(bytes)))
  {
  }
}
