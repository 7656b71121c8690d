/** What both publication protocols report. */
module Platform {
  datatype PublicationState = Complete | Partial | Failed | Unknown

  datatype ErrorCode =
    | InvalidPayload | Unauthorized | Forbidden | RateLimited | RemoteRejected
    | Temporary | Ambiguous | ResponseTooLarge | Protocol | Signing

  datatype PlatformError = PlatformError(code: ErrorCode, httpStatus: int, ambiguous: bool)
}
