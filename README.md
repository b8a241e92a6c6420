# External MQTT bridge of the EdgeX command service, in Dafny

This project models the core of `internal/core/command/controller/messaging/external.go`:
the bridge that lets clients of an external MQTT broker query device commands
and execute them over the internal message bus.

- `go_strings.dfy` (module `GoStrings`): the parts of Go's `strings` package the
  bridge uses — `Split` and `Join` with the separator `/`, and `EqualFold` — with
  lemmas that `Split` and `Join` are inverse to each other.
- `topic_scheme.dfy` (module `TopicScheme`): the topic scheme. A command topic
  ends in `<device>/<command>/<method>` after any prefix; the response topic is
  the configured prefix joined with those three raw segments; the method must
  be `get` or `set` in any letter case; a query topic names its device in its
  last level, and every letter-case variant of `all` means `all`.
- `envelope.dfy` (module `Envelopes`): the message envelope and the error
  envelope built from a request id and a message.
- `external.dfy` (module `Messaging`): `commandQueryHandler` and
  `commandRequestHandler` as methods with early returns. Each takes one broker
  message and returns the publish it makes, if any (`Option<Publication>`).
  `publishMessage` is the `Publication` event: topic, QoS, retain flag and envelope.
  The collaborators whose outcomes are inputs of the model form a
  `Collaborators` record of functions. It holds the JSON decoder,
  `validateRequestTopic`, `validateGetCommandQueryParameters`, the internal bus
  `Request` and `getCommandQueryResponseEnvelope`. Each is applied to exactly the
  arguments the handler passes, so the model also records what is passed to each.
  Other code outside this file is given a concrete definition instead:
  `strings.Split`, `Join` and `EqualFold` (module `GoStrings`), the Go map
  lookup that reads a missing key as `""` (`TopicFor`), and
  `types.NewMessageEnvelopeWithError` (`NewEnvelopeWithError`).

The handlers' contracts state the whole decision:
- a decode failure, a topic with fewer than three levels, or a method other than
  get/set means no publish;
- otherwise exactly one envelope goes to `<prefix>/<device>/<command>/<method>`;
- the first failing gate decides which envelope: routing, then query parameters,
  then the internal request;
- every error envelope carries the request's `RequestID`;
- a successful bus response is published unchanged.

In three places the code does something other than what a reader of the topic scheme might expect; the model follows the code:
- an invalid method is dropped without any publish (`external.go:115-119`), though
  a response topic could be built;
- query parameters are validated for every method, not only `get` (`external.go:131`);
- the response topic keeps the method segment in its original letter case (`external.go:121`).

## Model

| member | source | states |
|---|---|---|
| GoStrings.Split | internal/core/command/controller/messaging/external.go:103-104 | a topic splits into one level more than it has `/` separators, and no level contains `/` |
| GoStrings.SplitOfSegment | internal/core/command/controller/messaging/external.go:70-71 | a string without `/` is a single level |
| GoStrings.SplitAround | internal/core/command/controller/messaging/external.go:103 | splitting `a + "/" + b` gives the levels of `a` followed by those of `b` |
| GoStrings.JoinOfSplit | internal/core/command/controller/messaging/external.go:103 | joining the levels of a split with `/` gives the topic back |
| GoStrings.SplitOfJoin | internal/core/command/controller/messaging/external.go:121 | splitting a join of one or more `/`-free levels gives the levels back |
| GoStrings.Join | internal/core/command/controller/messaging/external.go:121 | joining one or more `/`-free levels puts exactly one separator between each two; JoinOfSplit and SplitOfJoin fix its contents as the inverse of `Split` |
| GoStrings.EqualFold | internal/core/command/controller/messaging/external.go:72 | strings equal under ASCII case folding have the same length; EqualFoldIffSameLower states exactly which pairs fold equal (also used at external.go:115) |
| GoStrings.EqualFoldIffSameLower | internal/core/command/controller/messaging/external.go:115 | two strings are equal under case folding exactly when their lower-case forms are equal |
| TopicScheme.ParseCommandTopic | internal/core/command/controller/messaging/external.go:103-114 | a command topic has a device, command and method exactly when it has at least two separators, and each of the three is `/`-free |
| TopicScheme.ParseComposed | internal/core/command/controller/messaging/external.go:111-114 | for any prefix, `prefix/d/c/m` (and `d/c/m` alone) parses to exactly device `d`, command `c`, method `m` |
| TopicScheme.JoinAppend | internal/core/command/controller/messaging/external.go:121 | joining two nonempty lists of levels joins their two joins with one `/` |
| TopicScheme.ParseShape | internal/core/command/controller/messaging/external.go:103-114 | a parsed topic is `d/c/m` itself, or the remaining levels joined back, then `/d/c/m` |
| TopicScheme.ResponseTopic | internal/core/command/controller/messaging/external.go:121 | the response topic is `prefix + "/" + device + "/" + command + "/" + method` with the raw segments, so the method keeps its case |
| TopicScheme.ResponseTopicRoundTrip | internal/core/command/controller/messaging/external.go:111-121 | parsing the response topic gives back the same device, command and method as the request topic |
| TopicScheme.IsAllowedMethod | internal/core/command/controller/messaging/external.go:115-119 | the method gate: only three-letter methods pass; AllowedMethodIff states exactly which (any case of `get` or `set`) |
| TopicScheme.AllowedMethodIff | internal/core/command/controller/messaging/external.go:115-119 | the method gate passes exactly the strings whose lower-case form is `get` or `set` |
| TopicScheme.LastSegment | internal/core/command/controller/messaging/external.go:70-71 | the last level of a topic always exists and is `/`-free |
| TopicScheme.LastSegmentOf | internal/core/command/controller/messaging/external.go:68-71 | the last level of `prefix/d` (and of `d` alone) is `d` |
| TopicScheme.QueryDeviceName | internal/core/command/controller/messaging/external.go:70-74 | the query's device is `all` exactly when the last level folds to `all`, and otherwise the last level unchanged |
| TopicScheme.QueryAllIgnoresCase | internal/core/command/controller/messaging/external.go:72-74 | topics whose last levels differ only in letter case agree on whether they mean `all` |
| Envelopes.NewEnvelopeWithError | internal/core/command/controller/messaging/external.go:78 | the error envelope built at external.go:78, :126, :133 and :146. Its body fixes the request id to the one given, the error code to 1, the payload to the message and the query parameters to empty. This body is a reading of the library's `types.NewMessageEnvelopeWithError`, whose code is not part of this model. It has no contract of its own; the handlers' ensures state which request id and message each error reply gets |
| Messaging.TopicFor | internal/core/command/controller/messaging/external.go:61 | Go map indexing of the topic tables at external.go:61, :121 and :124: a missing key reads as `""`. This is what makes a missing query response topic mean no publish, and a missing response prefix give `/d/c/m`. It has no contract of its own; the handlers' ensures use it |
| Messaging.PublishMessage | internal/core/command/controller/messaging/external.go:157-169 | the publish event: topic, QoS, retain flag and envelope as given; it has no contract of its own, and the handlers' ensures fix every field of the publish they make |
| Messaging.CommandQueryHandler | internal/core/command/controller/messaging/external.go:48-84 | no publish on a decode failure or an empty/missing query response topic; otherwise one publish to that topic with the configured QoS and retain, carrying the query's answer for `QueryDeviceName(topic)` or an error envelope with the request's id |
| Messaging.CommandRequestHandler | internal/core/command/controller/messaging/external.go:87-155 | publishes iff the request decodes, the topic has at least three levels and the method folds to get/set; the one publish goes to the response topic with the configured QoS and retain; a routing error wins over a query-parameter error, which wins over a bus error (prefixed as in the source); each error envelope echoes the request id; otherwise the bus response is published unchanged |

## Left out

- `OnConnectHandler` (`external.go:25-46`): broker subscription and token waits are I/O.
- Logging, the dependency-injection container lookups, and the MQTT `Publish` with its `Wait`: a publish is the returned `Publication`, and a failed delivery, which the source only logs, is not modelled.
- JSON encoding in `publishMessage` and decoding by `types.NewMessageEnvelopeFromJSON`: their code is not part of this model. Decoding is an input function, and the published envelope is given as a value, not as bytes.
- `validateRequestTopic`, `validateGetCommandQueryParameters`, `getCommandQueryResponseEnvelope`: defined outside this file, so they are inputs of the handlers.
- The internal bus `Request` and its timeout: a blocking, timed, concurrent call. It is an input function of the envelope, service, topic and timeout, and a timeout is one of its failures.
- GoStrings.EqualFold: compares with ASCII case folding only; Go's full Unicode simple folding (for example U+017F folding to `s`) is not modelled.
- GoStrings.Split: modelled for the separator `/` only, the one the bridge uses; likewise `Join`.
- Envelopes.NewEnvelopeWithError: the fresh correlation id, API version and content type it fills in come from outside this file, so they are a `Metadata` parameter. The payload is modelled as text, so `[]byte(message)` is the message itself.
- The value of `common.All` lives in a constants package that is not part of this model; it is taken to be `all`.
