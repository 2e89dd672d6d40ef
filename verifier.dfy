/**
 * verifyRequest (router.go:61-92): Slack's request-signing check. With a
 * signing secret configured, a request is authentic when its timestamp
 * header is a 64-bit decimal integer within the clock-skew tolerance and
 * its signature header is "v0=" followed by the hex HMAC-SHA256, keyed by
 * the secret, of "v0:" + the raw timestamp text + ":" + the body. With an
 * empty secret every request is trusted.
 */
module Verifier {
  import opened Wrappers
  import opened Library
  import opened Decimal
  import opened Hex
  import opened Clock
  import opened Requests
  import opened Errors

  const TimestampHeader: string := "X-Slack-Request-Timestamp"
  const SignatureHeader: string := "X-Slack-Signature"
  const Version: string := "v0="

  datatype Verdict = Accepted | Rejected(reason: Error)

  /** The text the MAC covers. */
  function SignedMessage(timestampHeader: string, body: string): string {
    "v0:" + timestampHeader + ":" + body
  }

  /** The conditions of an authentic request, all at once. */
  ghost predicate Authentic(secret: string, lib: Library, now: int, header: Values, body: string) {
    var timestampHeader := Get(header, TimestampHeader);
    var signatureHeader := Get(header, SignatureHeader);
    && ParseInt64(timestampHeader).Some?
    && TimeDifference(now, ParseInt64(timestampHeader).value).1
    && Version <= signatureHeader
    && DecodeString(signatureHeader[|Version|..]) == Some(lib.hmacSha256(secret, SignedMessage(timestampHeader, body)))
  }

  function VerifyRequest(secret: string, lib: Library, now: int, header: Values, body: string): (r: Verdict)
    ensures secret == "" ==> r == Accepted
    ensures secret != "" ==> (r == Accepted <==> Authentic(secret, lib, now, header, body))
    ensures r.Rejected? ==> r.reason.IsVerification()
  {
    if secret == "" then Accepted
    else
      var timestampHeader := Get(header, TimestampHeader);
      match ParseInt64(timestampHeader)
      case None => Rejected(InvalidTimestamp(timestampHeader))
      case Some(timestamp) =>
        var (difference, ok) := TimeDifference(now, timestamp);
        if !ok then Rejected(TimestampOutOfRange(difference))
        else
          var signatureHeader := Get(header, SignatureHeader);
          if !(Version <= signatureHeader) then Rejected(MissingVersion)
          else
            match DecodeString(signatureHeader[|Version|..])
            case None => Rejected(InvalidSignature(signatureHeader[|Version|..]))
            case Some(signature) =>
              if lib.hmacSha256(secret, SignedMessage(timestampHeader, body)) == signature
              then Accepted
              else Rejected(SignatureMismatch)
  }

  /**
   * The checks run in a fixed order and the first that fails is reported:
   * timestamp syntax, then skew, then the version prefix, then the hex
   * digits, then the MAC.
   */
  lemma FirstFailureReported(secret: string, lib: Library, now: int, header: Values, body: string)
    requires secret != ""
    ensures var r := VerifyRequest(secret, lib, now, header, body);
            var parsed := ParseInt64(Get(header, TimestampHeader));
            var signatureHeader := Get(header, SignatureHeader);
            && (r.Rejected? && r.reason.InvalidTimestamp? <==> parsed.None?)
            && (r.Rejected? && r.reason.TimestampOutOfRange? <==>
                  parsed.Some? && !TimeDifference(now, parsed.value).1)
            && (r.Rejected? && r.reason.MissingVersion? <==>
                  parsed.Some? && TimeDifference(now, parsed.value).1 && !(Version <= signatureHeader))
            && (r.Rejected? && r.reason.InvalidSignature? <==>
                  parsed.Some? && TimeDifference(now, parsed.value).1 && Version <= signatureHeader
                  && DecodeString(signatureHeader[|Version|..]).None?)
  {
  }

  /** The headers router_test.go's buildSlashRequest sets for a body signed at a given second. */
  function SignedHeader(secret: string, lib: Library, timestamp: int, body: string): (h: Values)
    ensures Get(h, "Content-Type") == "application/x-www-form-urlencoded"
    ensures Get(h, TimestampHeader) == FormatInt(timestamp)
    ensures var signature := Get(h, SignatureHeader);
            && Version <= signature
            && DecodeString(signature[|Version|..])
               == Some(lib.hmacSha256(secret, SignedMessage(FormatInt(timestamp), body)))
  {
    var timestampHeader := FormatInt(timestamp);
    var mac := lib.hmacSha256(secret, SignedMessage(timestampHeader, body));
    assert (Version + EncodeToString(mac))[|Version|..] == EncodeToString(mac);
    DecodeEncode(mac);
    map["Content-Type" := ["application/x-www-form-urlencoded"],
        TimestampHeader := [timestampHeader],
        SignatureHeader := [Version + EncodeToString(mac)]]
  }

  /** A request signed with the router's own secret, within the tolerance, is accepted. */
  lemma SignedRequestAccepted(secret: string, lib: Library, now: int, timestamp: int, body: string)
    requires IsInt64(timestamp) && TimeDifference(now, timestamp).1
    ensures VerifyRequest(secret, lib, now, SignedHeader(secret, lib, timestamp, body), body) == Accepted
  {
    var header := SignedHeader(secret, lib, timestamp, body);
    var timestampHeader := FormatInt(timestamp);
    var mac := lib.hmacSha256(secret, SignedMessage(timestampHeader, body));
    assert Get(header, TimestampHeader) == timestampHeader;
    assert Get(header, SignatureHeader) == Version + EncodeToString(mac);
    ParseFormatInt(timestamp);
    assert (Version + EncodeToString(mac))[|Version|..] == EncodeToString(mac);
    DecodeEncode(mac);
  }

  /**
   * A correctly signed request whose timestamp is out of tolerance is
   * rejected for its timestamp, however good its signature.
   */
  lemma OutOfToleranceRejected(secret: string, lib: Library, now: int, timestamp: int, body: string)
    requires secret != "" && IsInt64(timestamp) && !TimeDifference(now, timestamp).1
    ensures VerifyRequest(secret, lib, now, SignedHeader(secret, lib, timestamp, body), body)
         == Rejected(TimestampOutOfRange(TimeDifference(now, timestamp).0))
  {
    var header := SignedHeader(secret, lib, timestamp, body);
    assert Get(header, TimestampHeader) == FormatInt(timestamp);
    ParseFormatInt(timestamp);
  }

  /**
   * A request signed with another key, or whose body differs from the
   * body that was signed, is rejected as a mismatch whenever the two MACs
   * differ.
   */
  lemma ForgedRequestRejected(secret: string, signer: string, lib: Library, now: int,
                              timestamp: int, signedBody: string, body: string)
    requires secret != "" && IsInt64(timestamp) && TimeDifference(now, timestamp).1
    requires lib.hmacSha256(signer, SignedMessage(FormatInt(timestamp), signedBody))
          != lib.hmacSha256(secret, SignedMessage(FormatInt(timestamp), body))
    ensures VerifyRequest(secret, lib, now, SignedHeader(signer, lib, timestamp, signedBody), body)
         == Rejected(SignatureMismatch)
  {
    var header := SignedHeader(signer, lib, timestamp, signedBody);
    var timestampHeader := FormatInt(timestamp);
    var mac := lib.hmacSha256(signer, SignedMessage(timestampHeader, signedBody));
    assert Get(header, TimestampHeader) == timestampHeader;
    assert Get(header, SignatureHeader) == Version + EncodeToString(mac);
    ParseFormatInt(timestamp);
    assert (Version + EncodeToString(mac))[|Version|..] == EncodeToString(mac);
    DecodeEncode(mac);
  }

  /** The second a signer reads from the clock (time.Now().Unix()) is always within tolerance. */
  lemma CurrentSecondTolerated(now: int)
    ensures TimeDifference(now, now / Second).1
  {
    WithinTolerance(now, now / Second);
  }
}
