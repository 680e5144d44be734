# dnssls core in Dafny

A model of the decision logic of dnssls, a DNS-over-HTTPS (DoH) service that
runs as three AWS Lambda functions. The model covers three parts:

- **Responder** (`src/responder/src/main.rs`). It decodes a DNS query from an
  HTTP GET (`dns` parameter, base64url) or POST (binary body), as section 4.1
  of RFC 8484 describes. A query whose first question name is on the denylist
  is answered NXDOMAIN. Any other query goes to the upstream resolver, and
  the resolver's records are copied into the answer section. Every outcome
  becomes an HTTP response: 200, 400, 405 or 500. The denylist is loaded once
  from the bundled `hosts` file.
- **Deny-list updater** (`src/deny_list_updater/src/main.rs`). It takes the
  domains of a public hosts blocklist and removes those of an ABP-style allow
  list. The rest are written one per line as the responder's `hosts` file.
- **Device-profile publisher** (`src/apple_device_profile_publisher/src/main.rs`).
  This is a CloudFormation custom resource. It renders the Apple
  `dns.mobileconfig` template, uploads or deletes it, and reports success or
  failure back to CloudFormation.

Everything is a pure function over immutable datatypes. The foreign libraries
are passed in as parameters:

- `Responder.Codec` holds URL parsing with query pairs, base64url decoding,
  and DNS wire decoding and encoding. Each one returns `None` where the
  library returns an error.
- The resolver is a function from (name, record type) to a `Lookup` outcome.
- The publisher's environment variables and template file are an
  `Environment` record. Its S3 call is a function returning the error text,
  if any.
- The updater's two downloaded lists are plain text inputs.

A panic of the responder is modelled as the reply `Panicked`. The code
panics in three places: when the question list is empty, when serialisation
fails, and when `String::remove` in the trailing-dot removal lands inside a
multi-byte character (a name such as "é."; see Findings). `Responder.Respond`
has only the first two, because it uses the corrected removal.

Files, one module each: `wrappers.dfy` (Option/Result/Outcome), `text.dfy`
(pattern search, `str::replace`, regex lines, `BufRead::lines`), `dns.dfy`
(the message record), `domain_name.dfy` (trailing-dot removal),
`hosts_file.dfy` (the denylist loader), `responder.dfy`,
`deny_list_updater.dfy`, `device_profile_publisher.dfy`.

In these places the model follows the code:

- A resolver answer leaves the response code as it was in the query. It is
  not reset to a success code.
- The whole question list is copied into the response, not just the first
  question.
- A URI that the URL parser rejects gives 500, not 400. Only errors of the
  bad-request type are turned into 400.
- A message with no question makes the handler panic. It does not get a
  response.
- A denylist line is compared verbatim. There is no normalisation beyond
  removing the one trailing dot from the query name.

## Model

| member | source | states |
|---|---|---|
| Text.ReplaceMatchesScan | src/apple_device_profile_publisher/src/main.rs:122-123 | the search-based `str::replace` (copy up to each leftmost match, emit the replacement, resume after the match) equals a character-by-character scan on every input |
| Text.ReplaceIsSplitJoin | src/apple_device_profile_publisher/src/main.rs:122-123 | replacing every non-overlapping occurrence is splitting on the pattern and joining the pieces with the replacement |
| Text.JoinSplit | src/apple_device_profile_publisher/src/main.rs:122-123 | joining the pieces of a split with the pattern gives the original text back |
| Text.SplitPiecesFree | src/apple_device_profile_publisher/src/main.rs:122-123 | no piece between two matches contains the pattern, so the left-to-right search misses no occurrence |
| Text.ReplaceWithItself | src/apple_device_profile_publisher/src/main.rs:122-123 | replacing a pattern by itself leaves any text unchanged |
| Text.LinesAt | src/deny_list_updater/src/main.rs:95 | the lines a multi-line `^…$` pattern is tried on are exactly the spans that start at the text start or after a line feed, end at the text end or before a line feed, and hold no line feed |
| Text.Lines | src/deny_list_updater/src/main.rs:95 | the line view a multi-line pattern uses has at least one line, even for an empty text |
| Text.LinesJoin | src/deny_list_updater/src/main.rs:95 | joining the lines with line feeds gives the text back, so no character is lost or added |
| Text.LinesHaveNoNewline | src/deny_list_updater/src/main.rs:95 | no line a multi-line pattern sees contains a line feed |
| Text.ReadLines | src/responder/src/main.rs:106-110 | the lines `BufRead::lines` yields never contain a line feed |
| Text.ReadTerminated | src/responder/src/main.rs:80-86 | reading the lines of entries that are each followed by a line feed gives back exactly those entries in order, provided none contains a line feed or ends in a carriage return |
| Text.TerminatedShape | src/deny_list_updater/src/main.rs:47-51 | the written text is empty exactly when there are no entries, and otherwise ends with a line feed |
| HostsFile.Load | src/responder/src/main.rs:77-90 | a hosts file that cannot be opened gives an empty denylist, not a failure; no loaded entry contains a line feed |
| HostsFile.LoadTerminated | src/responder/src/main.rs:77-90 | loading a file of line-terminated entries gives exactly the set of those entries |
| HostsFile.LoadKeepsLinesVerbatim | src/responder/src/main.rs:82-85 | lines are inserted verbatim: surrounding spaces, upper case and a trailing dot are all kept |
| HostsFile.LoadTrimsCrlf | src/responder/src/main.rs:106-110 | a "\r\n" ending loses its carriage return, and a last line without a line feed is still loaded |
| DomainName.StripTrailingDot | src/responder/src/main.rs:153-157 | a name ending in '.' loses exactly that one dot (re-appending it gives the name back); any other name is unchanged |
| DomainName.StripRemovesOneDot | src/responder/src/main.rs:155-157 | a name ending in two dots keeps the first of them |
| DomainName.RemoveAtByteSpec | src/responder/src/main.rs:156 | `String::remove(idx)` removes exactly the character that starts at byte `idx`, and panics exactly when no character starts there: an index at or past the byte length, or one inside a multi-byte character |
| DomainName.StripAsWritten | src/responder/src/main.rs:155-157 | the code as written: a name not ending in '.' is kept; a name ending in '.' loses the character that starts at byte index "character count − 1", and the handler panics when no character starts there |
| DomainName.AsWrittenAgreesOnAscii | src/responder/src/main.rs:155-157 | for ASCII names, removing at byte index "character count − 1" never panics and gives the same name as removing the last character |
| DomainName.AsWrittenPanicsOnAccentedName | src/responder/src/main.rs:156 | for the name "é." the byte index falls inside 'é', so the code as written panics |
| DomainName.AsWrittenRemovesWrongCharacter | src/responder/src/main.rs:156 | for "café.com." the code as written removes the 'm' and gives "café.co.", where the intended result is "café.com" |
| Responder.FirstValue | src/responder/src/main.rs:214-217 | the value found is the one of the first pair named `dns`; nothing is found exactly when no pair has that name |
| Responder.ParsePayload | src/responder/src/main.rs:227-233 | a payload yields a message exactly when wire decoding succeeds; otherwise the error is "Invalid DNS message" |
| Responder.MessageFromGet | src/responder/src/main.rs:209-234 | a URL parse error is an unclassified error; a missing `dns` parameter is exactly the "Missing 'dns' query string parameter" error; every other failure is "Invalid DNS message"; a GET decodes exactly when the URI parses, some pair is named `dns`, the first such value is base64url and its bytes are a wire message, and the result is that message |
| Responder.MessageFromPost | src/responder/src/main.rs:236-255 | an empty body is "Empty body" and a text body is "Text body"; a message results exactly when the body is binary and decodes, and it is the decoded message; an undecodable binary body is "Invalid DNS message"; every POST failure is a bad request |
| Responder.DecodeRequest | src/responder/src/main.rs:121-123 | GET and POST each go to their own decoder; every decoded query is the wire decoding of some payload, and a POST never fails with an unclassified error |
| Responder.Blocked | src/responder/src/main.rs:153-164 | a query is blocked exactly when some denylist entry `h` is its first name with the root dot removed: the name is `h` + ".", or is `h` itself when `h` does not end in '.' |
| Responder.Synthesize | src/responder/src/main.rs:151-197 | the response keeps the query's id and question list, has QR = response and RA set; a denylist hit gives NXDOMAIN with the query's answers; otherwise found records are appended in order with the rcode kept, "no records" and protocol errors give NXDOMAIN, and any other resolver error fails |
| Responder.Respond | src/responder/src/main.rs:121-207 | any method but GET or POST gives 405 with an empty body; the status is one of 200, 400, 405 and 500; Content-Type `application/dns-message` is set exactly on 200, with a binary body; 400 carries a text body starting with "Bad request: "; 405 and 500 have empty bodies |
| Responder.MethodNotAllowed | src/responder/src/main.rs:121-127 | a method other than GET or POST gives 405 with an empty body, whatever the codecs, the denylist and the resolver are, so nothing is decoded |
| Responder.GetUnparsableUri | src/responder/src/main.rs:132-144 | a URI the URL parser rejects gives 500 with an empty body, not 400 |
| Responder.GetWithoutDnsParameter | src/responder/src/main.rs:214-217 | a GET with no `dns` parameter gives 400 "Bad request: Missing 'dns' query string parameter" |
| Responder.GetWithInvalidPayload | src/responder/src/main.rs:219-233 | a `dns` value that is not base64url, or whose bytes do not decode, gives 400 "Bad request: Invalid DNS message" |
| Responder.PostDecodeFailures | src/responder/src/main.rs:236-255 | an empty POST body gives 400 "Bad request: Empty body", a text body gives 400 "Bad request: Text body", and an undecodable binary body gives 400 "Bad request: Invalid DNS message" |
| Responder.GetAndPostAgree | src/responder/src/main.rs:209-255 | a GET whose `dns` parameter decodes to some bytes is answered exactly as a POST of those bytes |
| Responder.EmptyQuestionPanics | src/responder/src/main.rs:151 | a decoded message with no question makes the handler panic |
| Responder.OkCarriesResponse | src/responder/src/main.rs:159-206 | every 200 body is the encoding of a message with the decoded query's transaction id and questions, QR = response and RA set |
| Responder.DenylistedQueryAnswered | src/responder/src/main.rs:159-166 | a query whose stripped name is denylisted gets 200 with the encoding of the query marked response, RA set, rcode NXDOMAIN |
| Responder.ResolvedQueryAnswered | src/responder/src/main.rs:167-178 | a query the resolver answers gets 200 with the encoding of the query marked response, RA set, and the records appended to its answers in order |
| Responder.DenylistedNameIsNxdomain | src/responder/src/main.rs:164-166 | a denylist hit gives NXDOMAIN and no new answers, and the result does not depend on the resolver |
| Responder.OneLookupDecides | src/responder/src/main.rs:169-171 | the outcome depends on the resolver only through one lookup of the first question's unstripped name and type |
| Responder.BlockedLooksLikeNotFound | src/responder/src/main.rs:164-186 | a denylist hit and a "no records" answer produce the same message |
| Responder.OnlyFirstQuestionMatters | src/responder/src/main.rs:149-151 | questions after the first are copied into the response but never change the outcome |
| Responder.AnsweredQueryIsOk | src/responder/src/main.rs:159-206 | every decoded query that yields a response message gets 200 with Content-Type `application/dns-message` and that message's encoding, however the message was built |
| Responder.UnresolvedQueryAnswered | src/responder/src/main.rs:179-206 | a name off the denylist for which the resolver finds no records or hits a protocol error gets 200 with the encoding of the query marked response, RA set, rcode NXDOMAIN |
| Responder.ResolverErrorIs500 | src/responder/src/main.rs:188-193 | a resolver error other than "no records" or protocol gives 500 with an empty body |
| DenyListUpdater.HostsEntry | src/deny_list_updater/src/main.rs:95 | a blocklist line names a domain exactly when it starts with `0?0?0?0 `, where each `?` is any character; the domain is the rest of the line |
| DenyListUpdater.AllowEntry | src/deny_list_updater/src/main.rs:114 | an allow-list line names a domain exactly when it is "||" + domain + "^" |
| DenyListUpdater.HostsPatternDotsAreWildcards | src/deny_list_updater/src/main.rs:95 | "0x0y0z0 …" also matches, the domain keeps trailing text, and "127.0.0.1 …" does not match |
| DenyListUpdater.AllowPatternIsGreedy | src/deny_list_updater/src/main.rs:114 | the captured domain runs to the last '^', so it may contain '^' itself |
| DenyListUpdater.DenyList | src/deny_list_updater/src/main.rs:87-104 | no extracted domain contains a line feed |
| DenyListUpdater.AllowList | src/deny_list_updater/src/main.rs:106-127 | "static.adsafeprotected.com" is always allowed; no allowed domain contains a line feed |
| DenyListUpdater.DenyListAt | src/deny_list_updater/src/main.rs:95-101 | a domain is blocked exactly when some whole line of the blocklist names it |
| DenyListUpdater.AllowListAt | src/deny_list_updater/src/main.rs:114-124 | a domain is allowed exactly when it is the hand-added one or some whole line of the allow list names it |
| DenyListUpdater.HostsLineBlocks | src/deny_list_updater/src/main.rs:95-101 | a line "0.0.0.0 d" anywhere in the blocklist puts d on the deny list |
| DenyListUpdater.SerializeDifference | src/deny_list_updater/src/main.rs:47-51 | the output lists each domain of deny \ allow exactly once, each followed by a line feed, and nothing else; it is empty exactly when deny ⊆ allow and otherwise ends with a line feed |
| DenyListUpdater.LoadSerialized | src/deny_list_updater/src/main.rs:47-51 | the responder's loader reads the written file back as exactly deny \ allow, given no domain ends in a carriage return |
| DenyListUpdater.BuildHostsFile | src/deny_list_updater/src/main.rs:30-51 | the written file lists the blocklist's domains not on the allow list, once each, never the hand-allowed one, and loads back as exactly that set when no domain ends in a carriage return |
| Text.ReplaceAll | src/apple_device_profile_publisher/src/main.rs:122-123 | a text without the pattern is returned unchanged; `Text.ReplaceMatchesScan` ties every other input to an independent character scan |
| DeviceProfilePublisher.Render | src/apple_device_profile_publisher/src/main.rs:120-123 | a template with neither placeholder is published unchanged, and one without the resolver URL placeholder only gets the version substituted |
| DeviceProfilePublisher.RenderReplacesVersionInsideUrl | src/apple_device_profile_publisher/src/main.rs:122-123 | the version pass runs over the substituted URL, so a `##VERSION##` inside the resolver URL is replaced too |
| DeviceProfilePublisher.RenderIsSplitJoin | src/apple_device_profile_publisher/src/main.rs:120-123 | rendering is two split-and-join passes: first the resolver URL placeholder, then the version placeholder |
| DeviceProfilePublisher.Plan | src/apple_device_profile_publisher/src/main.rs:107-142 | Delete only deletes `dns.mobileconfig` and needs only the bucket variable; Create and Update fail on a missing bucket variable, resolver URL or template, checked in that order, and otherwise are exactly the upload of the rendered template to the bucket as `dns.mobileconfig` with the Apple profile content type |
| DeviceProfilePublisher.PlanUpload | src/apple_device_profile_publisher/src/main.rs:114-132 | the upload succeeds in planning exactly when the bucket variable, the resolver URL and the template are all present; it is a put of the rendered template into that bucket, and otherwise fails with one of the three missing-input errors |
| DeviceProfilePublisher.Describe | src/apple_device_profile_publisher/src/main.rs:93 | a storage error is reported with its own text; every error found before the storage call has a non-empty text |
| DeviceProfilePublisher.DescribeTellsEarlyErrorsApart | src/apple_device_profile_publisher/src/main.rs:117-142 | the four errors found before the storage call have pairwise different texts, so the reported reason names its cause |
| DeviceProfilePublisher.CreateAndUpdateAgree | src/apple_device_profile_publisher/src/main.rs:107-110 | Create and Update lead to the same storage call |
| DeviceProfilePublisher.DeleteIgnoresTemplate | src/apple_device_profile_publisher/src/main.rs:139-154 | Delete never reads the resolver URL or the template |
| DeviceProfilePublisher.HandleRequest | src/apple_device_profile_publisher/src/main.rs:100-154 | an error found while planning is returned as it is; otherwise the request succeeds exactly when the storage call does, and fails with the storage error's text |
| DeviceProfilePublisher.EarlyErrorsSkipStorage | src/apple_device_profile_publisher/src/main.rs:117-121 | an error found before the storage call does not depend on storage at all |
| DeviceProfilePublisher.SuccessRecord | src/apple_device_profile_publisher/src/main.rs:156-166 | status SUCCESS, no reason, the given physical id, and stack, request and logical ids copied from the request |
| DeviceProfilePublisher.FailureRecord | src/apple_device_profile_publisher/src/main.rs:171-181 | identical to the success record except status FAILED and the error text as reason |
| DeviceProfilePublisher.Handler | src/apple_device_profile_publisher/src/main.rs:86-97 | one record is sent, to the request's response URL, with physical id `dns.mobileconfig`; it reports success exactly when handling succeeded, and otherwise carries the error's text |
| DeviceProfilePublisher.MissingBucketReported | src/apple_device_profile_publisher/src/main.rs:117 | an upload without the bucket variable is reported as failed with the reason "APPLE_DEVICE_PROFILE_BUCKET_NAME env var not set" |

## Findings

| source | as written | input that shows it | evidently intended | confidence | as-written member | corrected member |
|---|---|---|---|---|---|---|
| src/responder/src/main.rs:155-157 | `domain.remove(domain.chars().count() - 1)` uses a character count as a byte index | the query name `xn--caf-dma.com.` (text form "café.com.") becomes "café.co."; `xn--9ca.` (text form "é.") panics the handler | remove the final '.' (byte index `len() - 1`) | not executed; medium: relies on the DNS library's text form decoding punycode labels to Unicode | DomainName.AsWrittenRemovesWrongCharacter | DomainName.StripTrailingDot |

`DomainName.StripAsWritten` models the code as written. It uses UTF-8 widths
and models `String::remove`'s panic on a non-boundary index.
`DomainName.AsWrittenPanicsOnAccentedName` gives the panicking input.
`DomainName.AsWrittenAgreesOnAscii` proves that the code as written and the
corrected removal agree on every ASCII name. `Responder.Respond` uses the
corrected removal.

## Left out

- The Lambda and API Gateway runtime is left out. So are client-IP
  extraction (src/responder/src/main.rs:113-119) and every `println!`.
  These are I/O with no effect on the result.
- DNS wire decoding and encoding, base64url decoding, and `Url::parse` with
  `query_pairs` percent-decoding are foreign libraries. They are inputs
  (`Responder.Codec`), and a failing `to_bytes` is the `SerializeFailed`
  panic.
- The message record keeps only id, message type, RA, rcode, questions and
  answers. The opcode, the other flags, and the authority and additional
  sections are copied unchanged by the clone and are not modelled.
- The upstream resolver, tokio and `lazy_static` initialisation are left
  out. These are network I/O and concurrency, so the resolver is a function
  parameter.
- HostsFile.Load reads the file as text. Lines that are not valid UTF-8,
  which `if let Ok(host)` skips, are not modelled.
- Updater I/O is left out, because it is foreign I/O and library code:
  - the HTTP downloads and UTF-8 decoding of the two lists;
  - the Lambda GetFunction and UpdateFunctionCode calls;
  - the zip rewrite in `update_code_package`;
  - the `RESPONDER_FUNCTION_NAME` lookup.
- A general regex engine is not modelled. The two fixed patterns are encoded
  directly as line predicates.
- Publisher I/O is left out: the S3 put and delete, the reqwest PUT of the
  record and its panic on failure, JSON serialisation, and environment
  variables that are set but not valid Unicode. S3 is a parameter that
  returns an error text.
- DeviceProfilePublisher.Describe: the message for a missing bucket variable
  on Delete is the standard library's text for an absent variable. It is
  written as a constant, not derived.
- Responder.Blocked: it uses the corrected trailing-dot removal. The
  as-written removal differs only on non-ASCII names; see Findings.
- Responder.Synthesize: it decides a denylist hit through `Responder.Blocked`,
  so it inherits the corrected removal.
- Responder.Respond: it answers through `Responder.Synthesize`, so it
  inherits the corrected removal and has no panic on non-ASCII names.
