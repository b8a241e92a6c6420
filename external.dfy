/**
 * The two message handlers of the command service's external MQTT bridge.
 * Each handler receives one broker message and yields at most one publish.
 * The collaborators it calls (JSON decoding, device routing, query-parameter
 * validation, the internal bus request, the command query) are inputs.
 */
module Messaging {
  import opened Wrappers
  import opened GoStrings
  import opened TopicScheme
  import opened Envelopes

  /** The configuration keys the handlers look up. */
  datatype TopicKey =
    | ExternalCommandQueryResponseTopicKey
    | ExternalCommandResponseTopicPrefixKey
    | DeviceCommandRequestTopicPrefixKey

  /** A Go map lookup: a missing key reads as the empty string. */
  function TopicFor(topics: map<TopicKey, string>, key: TopicKey): string {
    if key in topics then topics[key] else ""
  }

  datatype ExternalMqttInfo = ExternalMqttInfo(topics: map<TopicKey, string>, qos: byte, retain: bool)

  datatype MessageBusInfo = MessageBusInfo(topics: map<TopicKey, string>)

  /** Read-only configuration, loaded once for the life of the bridge. */
  datatype Configuration = Configuration(externalMqtt: ExternalMqttInfo, messageBus: MessageBusInfo)

  /** A message delivered by the external broker. */
  datatype MqttMessage = MqttMessage(topic: string, payload: seq<byte>)

  /** Where the internal bus request for a device command goes. */
  datatype DeviceRoute = DeviceRoute(deviceServiceName: string, deviceRequestTopic: string)

  /**
   * The outcomes of the code the handlers call but that is not part of this
   * model, each as a function of exactly the arguments the handler passes;
   * a failure carries the error's message.
   */
  datatype Collaborators = Collaborators(
    // types.NewMessageEnvelopeFromJSON
    decode: seq<byte> -> Result<MessageEnvelope, string>,
    // validateRequestTopic(prefix, device, command, method)
    validateRequestTopic: (string, string, string, string) -> Result<DeviceRoute, string>,
    // validateGetCommandQueryParameters: None when the parameters are accepted
    validateQueryParameters: map<string, string> -> Option<string>,
    // the internal bus Request(envelope, service, topic, timeout); the timeout is a signed time.Duration
    request: (MessageEnvelope, string, string, int) -> Result<MessageEnvelope, string>,
    // getCommandQueryResponseEnvelope(envelope, device)
    commandQuery: (MessageEnvelope, string) -> Result<MessageEnvelope, string>)

  /** One publish to the external broker. */
  datatype Publication = Publication(topic: string, qos: byte, retain: bool, envelope: MessageEnvelope)

  /** The text put before the internal bus error in the reply to a failed request. */
  const BusErrorPrefix: string := "Failed to send DeviceCommand request with internal MessageBus: "

  /** `publishMessage`: the envelope goes to the topic with the given delivery options. */
  function PublishMessage(topic: string, qos: byte, retain: bool, message: MessageEnvelope): Publication {
    Publication(topic, qos, retain, message)
  }

  /**
   * `commandQueryHandler`. Nothing is published when the request does not
   * decode or no query response topic is configured; otherwise exactly one
   * reply goes to that topic: the query's answer for the device named by the
   * topic's last level, or an error envelope echoing the request id.
   */
  method CommandQueryHandler(config: Configuration, collab: Collaborators, errorMeta: Metadata, message: MqttMessage)
    returns (published: Option<Publication>)
    ensures collab.decode(message.payload).Failure? ==> published.None?
    ensures published.Some? <==>
      collab.decode(message.payload).Success?
      && TopicFor(config.externalMqtt.topics, ExternalCommandQueryResponseTopicKey) != ""
    ensures published.Some? ==>
      var request := collab.decode(message.payload).value;
      var p := published.value;
      && p.topic == TopicFor(config.externalMqtt.topics, ExternalCommandQueryResponseTopicKey)
      && p.qos == config.externalMqtt.qos
      && p.retain == config.externalMqtt.retain
      && match collab.commandQuery(request, QueryDeviceName(message.topic))
         case Success(answer) => p.envelope == answer
         case Failure(error) =>
           && p.envelope == NewEnvelopeWithError(request.requestId, error, errorMeta)
           && p.envelope.requestId == request.requestId
           && p.envelope.errorCode == ErrorCodeFailure
  {
    var decoded := collab.decode(message.payload);
    if decoded.Failure? {
      return None;
    }
    var requestEnvelope := decoded.value;

    var externalMqttInfo := config.externalMqtt;
    var responseTopic := TopicFor(externalMqttInfo.topics, ExternalCommandQueryResponseTopicKey);
    if responseTopic == "" {
      return None;
    }

    var topicLevels := Split(message.topic);
    var deviceName := topicLevels[|topicLevels| - 1];
    if EqualFold(deviceName, AllKeyword) {
      deviceName := AllKeyword;
    }

    var responseEnvelope;
    var answer := collab.commandQuery(requestEnvelope, deviceName);
    if answer.Failure? {
      responseEnvelope := NewEnvelopeWithError(requestEnvelope.requestId, answer.error, errorMeta);
    } else {
      responseEnvelope := answer.value;
    }

    published := Some(PublishMessage(responseTopic, externalMqttInfo.qos, externalMqttInfo.retain, responseEnvelope));
  }

  /**
   * `commandRequestHandler`. Nothing is published when the request does not
   * decode, the topic has fewer than three levels, or the method is not
   * get/set in some letter case. Otherwise exactly one envelope goes to
   * `<response prefix>/<device>/<command>/<method>`, decided by the first
   * gate that fails: routing, then query parameters (for every method), then
   * the internal bus request; if none fails, the bus response unchanged.
   */
  method CommandRequestHandler(
    requestTimeout: int, config: Configuration, collab: Collaborators, errorMeta: Metadata, message: MqttMessage)
    returns (published: Option<Publication>)
    ensures collab.decode(message.payload).Failure? ==> published.None?
    ensures Count(message.topic) < 2 ==> published.None?
    ensures published.Some? <==>
      && collab.decode(message.payload).Success?
      && ParseCommandTopic(message.topic).Some?
      && IsAllowedMethod(ParseCommandTopic(message.topic).value.methodName)
    ensures published.Some? ==>
      var request := collab.decode(message.payload).value;
      var a := ParseCommandTopic(message.topic).value;
      var p := published.value;
      && p.topic == ResponseTopic(TopicFor(config.externalMqtt.topics, ExternalCommandResponseTopicPrefixKey), a)
      && p.qos == config.externalMqtt.qos
      && p.retain == config.externalMqtt.retain
      && match collab.validateRequestTopic(
               TopicFor(config.messageBus.topics, DeviceCommandRequestTopicPrefixKey),
               a.device, a.command, a.methodName)
         case Failure(error) =>
           p.envelope == NewEnvelopeWithError(request.requestId, error, errorMeta)
         case Success(route) =>
           match collab.validateQueryParameters(request.queryParams)
           case Some(error) =>
             p.envelope == NewEnvelopeWithError(request.requestId, error, errorMeta)
           case None =>
             match collab.request(request, route.deviceServiceName, route.deviceRequestTopic, requestTimeout)
             case Failure(error) =>
               p.envelope == NewEnvelopeWithError(request.requestId, BusErrorPrefix + error, errorMeta)
             case Success(response) =>
               p.envelope == response
  {
    var externalMqttInfo := config.externalMqtt;
    var qos := externalMqttInfo.qos;
    var retain := externalMqttInfo.retain;

    var decoded := collab.decode(message.payload);
    if decoded.Failure? {
      return None;
    }
    var requestEnvelope := decoded.value;

    var topicLevels := Split(message.topic);
    var length := |topicLevels|;
    if length < 3 {
      return None;
    }

    var deviceName := topicLevels[length - 3];
    var commandName := topicLevels[length - 2];
    var methodName := topicLevels[length - 1];
    if !EqualFold(methodName, "get") && !EqualFold(methodName, "set") {
      return None;
    }

    var externalResponseTopic :=
      Join([TopicFor(externalMqttInfo.topics, ExternalCommandResponseTopicPrefixKey), deviceName, commandName, methodName]);

    var internalMessageBusInfo := config.messageBus;
    var route := collab.validateRequestTopic(
      TopicFor(internalMessageBusInfo.topics, DeviceCommandRequestTopicPrefixKey), deviceName, commandName, methodName);
    if route.Failure? {
      var responseEnvelope := NewEnvelopeWithError(requestEnvelope.requestId, route.error, errorMeta);
      return Some(PublishMessage(externalResponseTopic, qos, retain, responseEnvelope));
    }

    var queryError := collab.validateQueryParameters(requestEnvelope.queryParams);
    if queryError.Some? {
      var responseEnvelope := NewEnvelopeWithError(requestEnvelope.requestId, queryError.value, errorMeta);
      return Some(PublishMessage(externalResponseTopic, qos, retain, responseEnvelope));
    }

    var response := collab.request(
      requestEnvelope, route.value.deviceServiceName, route.value.deviceRequestTopic, requestTimeout);
    if response.Failure? {
      var errorMessage := BusErrorPrefix + response.error;
      var responseEnvelope := NewEnvelopeWithError(requestEnvelope.requestId, errorMessage, errorMeta);
      return Some(PublishMessage(externalResponseTopic, qos, retain, responseEnvelope));
    }

    published := Some(PublishMessage(externalResponseTopic, qos, retain, response.value));
  }
}
