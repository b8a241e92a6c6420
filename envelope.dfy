/**
 * The message envelope exchanged on both the external broker and the
 * internal message bus (`types.MessageEnvelope`).
 */
module Envelopes {

  newtype byte = x: int | 0 <= x < 256

  /** The error code of an envelope that reports a failure. */
  const ErrorCodeFailure: int := 1

  /**
   * The fields the error-envelope constructor fills on its own: a fresh
   * correlation id, the API version and the content type.
   */
  datatype Metadata = Metadata(correlationId: string, apiVersion: string, contentType: string)

  /**
   * An envelope: the caller's request id, an error code (1 reports a
   * failure), the payload (modelled as text) and the query parameters.
   */
  datatype MessageEnvelope = MessageEnvelope(
    meta: Metadata,
    requestId: string,
    errorCode: int,
    payload: string,
    queryParams: map<string, string>)

  /** `types.NewMessageEnvelopeWithError`: an error reply to the request `requestId`. */
  function NewEnvelopeWithError(requestId: string, message: string, meta: Metadata): MessageEnvelope {
    MessageEnvelope(meta, requestId, ErrorCodeFailure, message, map[])
  }
}
