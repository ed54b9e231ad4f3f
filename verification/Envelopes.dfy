/** The transport envelope of platform.v1 and its freshness contract. */
module Envelopes {
  import opened Prelude

  const MAX_PAYLOAD: nat := 1024 * 1024
  const MAX_TTL_MS: nat := 60_000
  const ENVELOPE_SKEW: int := 2 * SECOND

  /** `tagValid` stands for a correct HMAC tag, `payload` is None when the bytes do not parse. */
  datatype Envelope<+P> = Envelope(
    schemaMajor: nat,
    schemaMinor: nat,
    messageType: string,
    vehicleId: string,
    gatewayId: string,
    sessionId: string,
    sequence: uint64,
    utcTimeNs: int,
    monotonicTimeNs: uint64,
    ttlMs: nat,
    traceId: string,
    payloadSize: nat,
    tagValid: bool,
    payload: Option<P>)

  predicate Fresh(utcTimeNs: int, ttlMs: nat, skew: int, now: int) {
    -skew <= now - utcTimeNs <= ttlMs * MILLISECOND + skew
  }

  predicate ValidateEnvelope<P>(env: Envelope<P>, expectedType: string, vehicleId: string, gatewayId: string,
                                now: int) {
    && env.schemaMajor == 1 && env.schemaMinor == 0
    && (expectedType != "" ==> env.messageType == expectedType)
    && env.vehicleId != "" && env.vehicleId == vehicleId
    && env.gatewayId != "" && env.gatewayId == gatewayId
    && env.sessionId != "" && env.sequence != 0 && env.utcTimeNs > 0 && env.monotonicTimeNs != 0
    && 0 < env.ttlMs <= MAX_TTL_MS && env.traceId != ""
    && 0 < env.payloadSize <= MAX_PAYLOAD
    && Fresh(env.utcTimeNs, env.ttlMs, ENVELOPE_SKEW, now)
  }
}
