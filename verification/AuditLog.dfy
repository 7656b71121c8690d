/** The audit log: sealed rows, each under the context of its own time. */
module AuditLog {
  import opened Wrappers
  import opened EgressTypes
  import opened StoreContexts
  import opened Sealing
  import opened ReceiptTable

  datatype AuditEvent = AuditEvent(jobID: string, kind: string, detail: string, createdAt: Instant)

  /** The JSON form of an event; encoding fails for some times. */
  datatype AuditCodec = AuditCodec(encode: AuditEvent -> Option<Bytes>, decode: Bytes -> Option<AuditEvent>)

  datatype AuditRow = AuditRow(createdAt: int, sealed: Bytes)

  /** The row of an event, if it encodes and there is entropy to seal it. */
  function RowOf(a: AEAD, master: Bytes, codec: AuditCodec, event: AuditEvent,
                 entropy: Option<Entropy>): Option<AuditRow> {
    match (codec.encode(event), entropy)
    case (Some(payload), Some(e)) =>
      var at := Millis(event.createdAt);
      Some(AuditRow(at, Sealed(a, master, payload, ContextBytes(Audit(at)), e)))
    case _ => None
  }

  /** What a row reads as. */
  function OpenedEvent(a: AEAD, master: Bytes, codec: AuditCodec, row: AuditRow): Option<AuditEvent> {
    match Opened(a, master, row.sealed, ContextBytes(Audit(Millis(FromMillis(row.createdAt)))))
    case None => None
    case Some(payload) => codec.decode(payload)
  }

  /** Moved to another row, a sealed event opens exactly if the millisecond is its own. */
  lemma MovedEventOpensIff(a: AEAD, master: Bytes, codec: AuditCodec, event: AuditEvent, e: Entropy, row: AuditRow)
    requires Correct(a) && Bound(a) && |master| == KEY_SIZE && e.Fits(a)
    requires codec.encode(event).Some? && codec.decode(codec.encode(event).value) == Some(event)
    requires row.sealed == RowOf(a, master, codec, event, Some(e)).value.sealed
    ensures OpenedEvent(a, master, codec, row).Some? <==> Millis(FromMillis(row.createdAt)) == Millis(event.createdAt)
  {
    var sealedFor := Audit(Millis(event.createdAt));
    var readAs := Audit(Millis(FromMillis(row.createdAt)));
    OpensInContext(a, master, codec.encode(event).value, ContextBytes(sealedFor), ContextBytes(readAs), e);
    if ContextBytes(readAs) == ContextBytes(sealedFor) {
      ContextBytesInjective(readAs, sealedFor);
      ContextInjective(readAs, sealedFor);
    }
  }

  /** A logged event that survives its JSON form reads back, unless it was logged in the first
      millisecond of 1970. */
  lemma LoggedEventOpens(a: AEAD, master: Bytes, codec: AuditCodec, event: AuditEvent, e: Entropy)
    requires Correct(a) && |master| == KEY_SIZE && e.Fits(a) && Millis(event.createdAt) != 0
    requires codec.encode(event).Some? && codec.decode(codec.encode(event).value) == Some(event)
    ensures RowOf(a, master, codec, event, Some(e)).Some?
    ensures OpenedEvent(a, master, codec, RowOf(a, master, codec, event, Some(e)).value) == Some(event)
  {
    ReadContextIsWriteContext("", event.createdAt);
    OpenInvertsSeal(a, master, codec.encode(event).value, ContextBytes(Audit(Millis(event.createdAt))), e);
  }
}
