/** The receipts of publications: sealed rows that belong to a job, listed by time. */
module ReceiptTable {
  import opened Wrappers
  import opened EgressTypes
  import opened StoreContexts
  import opened Sealing
  import Ordering
  import Text
  import Utf8

  datatype PlatformReceipt = PlatformReceipt(
    id: int,
    jobID: string,
    platform: string,
    state: string,
    externalID: string,
    countryCode: string,
    attemptCount: int,
    relayAccepted: int,
    relayAttempted: int,
    safeError: string,
    createdAt: Instant)

  /** The JSON form of a receipt; encoding fails for some times, decoding for most bytes. */
  datatype Codec = Codec(encode: PlatformReceipt -> Option<Bytes>, decode: Bytes -> Option<PlatformReceipt>)

  /** The receipt survives its JSON form, as every one with text in UTF-8 does. */
  predicate Carries(codec: Codec, receipt: PlatformReceipt) {
    codec.encode(receipt).Some? && codec.decode(codec.encode(receipt).value) == Some(receipt)
  }

  datatype ReceiptRow = ReceiptRow(id: int, jobID: string, createdAt: int, sealed: Bytes)

  type Receipts = seq<ReceiptRow>

  function ContextBytes(k: RecordKind): Bytes {
    Utf8.Encode(Text.Of(Context(k)))
  }

  function SealedRow(a: AEAD, master: Bytes, id: int, jobID: string, created: Instant, payload: Bytes,
                     e: Entropy): ReceiptRow {
    ReceiptRow(id, jobID, Millis(created), Sealed(a, master, payload, ContextBytes(Receipt(jobID, Millis(created))), e))
  }

  /** The receipt read from a row: everything but the ID comes from the sealed payload. */
  function OpenedRow(a: AEAD, master: Bytes, codec: Codec, row: ReceiptRow): Option<PlatformReceipt> {
    match Opened(a, master, row.sealed, ContextBytes(Receipt(row.jobID, Millis(FromMillis(row.createdAt)))))
    case None => None
    case Some(payload) =>
      match codec.decode(payload)
      case None => None
      case Some(receipt) => Some(receipt.(id := row.id))
  }

  /** A receipt sealed when it is added opens again when it is listed, unless it was
      created in the first millisecond of 1970. */
  lemma ListedReceiptOpens(a: AEAD, master: Bytes, codec: Codec, id: int, receipt: PlatformReceipt, e: Entropy)
    requires Correct(a) && |master| == KEY_SIZE && e.Fits(a)
    requires Carries(codec, receipt) && Millis(receipt.createdAt) != 0
    ensures var row := SealedRow(a, master, id, receipt.jobID, receipt.createdAt, codec.encode(receipt).value, e);
            OpenedRow(a, master, codec, row) == Some(receipt.(id := id))
  {
    ReadContextIsWriteContext(receipt.jobID, receipt.createdAt);
    var context := Receipt(receipt.jobID, Millis(receipt.createdAt));
    OpenInvertsSeal(a, master, codec.encode(receipt).value, ContextBytes(context), e);
  }

  lemma ContextBytesInjective(k: RecordKind, k': RecordKind)
    requires ContextBytes(k) == ContextBytes(k')
    ensures Context(k) == Context(k')
  {
    Utf8.DecodeOfEncode(Text.Of(Context(k)));
    Utf8.DecodeOfEncode(Text.Of(Context(k')));
    Text.OfInjective(Context(k), Context(k'));
  }

  /** Moved to another row, a sealed receipt opens exactly if job and millisecond are those it
      was sealed for. */
  lemma MovedReceiptOpensIff(a: AEAD, master: Bytes, codec: Codec, receipt: PlatformReceipt, e: Entropy,
                             row: ReceiptRow)
    requires Correct(a) && Bound(a) && |master| == KEY_SIZE && e.Fits(a) && Carries(codec, receipt)
    requires row.sealed == SealedRow(a, master, row.id, receipt.jobID, receipt.createdAt,
                                     codec.encode(receipt).value, e).sealed
    ensures OpenedRow(a, master, codec, row).Some? <==>
              row.jobID == receipt.jobID && Millis(FromMillis(row.createdAt)) == Millis(receipt.createdAt)
  {
    var sealedFor := Receipt(receipt.jobID, Millis(receipt.createdAt));
    var readAs := Receipt(row.jobID, Millis(FromMillis(row.createdAt)));
    OpensInContext(a, master, codec.encode(receipt).value, ContextBytes(sealedFor), ContextBytes(readAs), e);
    if ContextBytes(readAs) == ContextBytes(sealedFor) {
      ContextBytesInjective(readAs, sealedFor);
      ReceiptContextInjective(row.jobID, readAs.millis, receipt.jobID, sealedFor.millis);
    }
  }

  type Read = ReceiptRow -> Option<PlatformReceipt>

  /** The receipts read from rows, if all of them open. */
  function Reading(read: Read, rows: Receipts): Option<seq<PlatformReceipt>> {
    if rows == [] then Some([])
    else
      match (read(rows[0]), Reading(read, rows[1..]))
      case (Some(receipt), Some(rest)) => Some([receipt] + rest)
      case _ => None
  }

  /** The whole reading, when the first rows have been read and the rest are still to be. */
  function Continued(listed: seq<PlatformReceipt>, rest: Option<seq<PlatformReceipt>>): Option<seq<PlatformReceipt>> {
    match rest case None => None case Some(more) => Some(listed + more)
  }

  lemma ContinuedFromStart(rest: Option<seq<PlatformReceipt>>)
    ensures Continued([], rest) == rest
  {
    if rest.Some? {
      assert [] + rest.value == rest.value;
    }
  }

  lemma ContinuedByOne(read: Read, listed: seq<PlatformReceipt>, rows: Receipts)
    requires rows != [] && read(rows[0]).Some?
    ensures Continued(listed, Reading(read, rows))
         == Continued(listed + [read(rows[0]).value], Reading(read, rows[1..]))
  {
    if Reading(read, rows[1..]).Some? {
      var more := Reading(read, rows[1..]).value;
      assert listed + ([read(rows[0]).value] + more) == listed + [read(rows[0]).value] + more;
    }
  }

  /** Either every row opens and is listed in its place, or nothing is listed. */
  lemma {:induction false} ReadingIsExact(read: Read, rows: Receipts)
    ensures Reading(read, rows).Some? <==> forall i :: 0 <= i < |rows| ==> read(rows[i]).Some?
    ensures match Reading(read, rows)
            case None => true
            case Some(listed) => |listed| == |rows| && forall i :: 0 <= i < |rows| ==> read(rows[i]) == Some(listed[i])
  {
    if rows != [] {
      ReadingIsExact(read, rows[1..]);
      assert forall i :: 1 <= i < |rows| ==> rows[i] == rows[1..][i - 1];
    }
  }

  // Selection by job, ordered by time.

  ghost predicate ByTime(rows: Receipts) {
    forall i, j :: 0 <= i < j < |rows| ==> rows[i].createdAt <= rows[j].createdAt
  }

  /** The rows of one job in order of insertion. */
  function OfJob(rows: Receipts, jobID: string): Receipts {
    if rows == [] then []
    else OfJob(rows[..|rows| - 1], jobID) + if rows[|rows| - 1].jobID == jobID then [rows[|rows| - 1]] else []
  }

  /** What SELECT ... WHERE job_id = ? ORDER BY created_at may return: rows of one time come
      in any order. */
  ghost predicate IsSelection(rows: Receipts, receipts: Receipts, jobID: string) {
    ByTime(rows) && multiset(rows) == multiset(OfJob(receipts, jobID))
  }

  method Select(receipts: Receipts, jobID: string) returns (rows: Receipts)
    ensures IsSelection(rows, receipts, jobID)
  {
    var earlier := (a: ReceiptRow, b: ReceiptRow) => a.createdAt < b.createdAt;
    rows := Ordering.Sort(OfJob(receipts, jobID), earlier);
    assert forall i, j :: 0 <= i < j < |rows| ==> !earlier(rows[j], rows[i]);
  }

  lemma {:induction false} OfJobCounts(rows: Receipts, jobID: string, row: ReceiptRow)
    ensures multiset(OfJob(rows, jobID))[row] == if row.jobID == jobID then multiset(rows)[row] else 0
  {
    if rows != [] {
      OfJobCounts(rows[..|rows| - 1], jobID, row);
      assert rows == rows[..|rows| - 1] + [rows[|rows| - 1]];
    }
  }

  /** A selection has exactly the rows of the job, each as often as the table. */
  lemma SelectionIsExact(rows: Receipts, receipts: Receipts, jobID: string, row: ReceiptRow)
    requires IsSelection(rows, receipts, jobID)
    ensures multiset(rows)[row] == if row.jobID == jobID then multiset(receipts)[row] else 0
    ensures forall i, j :: 0 <= i < j < |rows| ==> rows[i].createdAt <= rows[j].createdAt
  {
    OfJobCounts(receipts, jobID, row);
  }

  /** A listing succeeds exactly when every row of the job opens, and then shows each of
      them, and nothing else. */
  lemma ListingIsExact(read: Read, selected: Receipts, receipts: Receipts, jobID: string, receipt: PlatformReceipt)
    requires IsSelection(selected, receipts, jobID)
    ensures Reading(read, selected).Some? <==>
              forall row :: row in receipts && row.jobID == jobID ==> read(row).Some?
    ensures Reading(read, selected).Some? ==>
              (receipt in Reading(read, selected).value <==>
                 exists row :: row in receipts && row.jobID == jobID && read(row) == Some(receipt))
  {
    ReadingIsExact(read, selected);
    forall row ensures row in selected <==> row in receipts && row.jobID == jobID {
      SelectionIsExact(selected, receipts, jobID, row);
      assert row in selected <==> multiset(selected)[row] > 0;
      assert row in receipts <==> multiset(receipts)[row] > 0;
    }
    if Reading(read, selected).Some? {
      var listed := Reading(read, selected).value;
      if row :| row in receipts && row.jobID == jobID && read(row) == Some(receipt) {
        assert row in selected;
        var i :| 0 <= i < |selected| && selected[i] == row;
        assert listed[i] == receipt;
      }
      if receipt in listed {
        var i :| 0 <= i < |listed| && listed[i] == receipt;
        assert selected[i] in selected && read(selected[i]) == Some(receipt);
      }
    } else {
      var i :| 0 <= i < |selected| && read(selected[i]).None?;
      assert selected[i] in selected;
    }
  }

  // The cascade.

  /** The rows whose job is still there. */
  function Kept(rows: Receipts, jobs: set<string>): Receipts {
    if rows == [] then []
    else Kept(rows[..|rows| - 1], jobs) + if rows[|rows| - 1].jobID in jobs then [rows[|rows| - 1]] else []
  }

  ghost predicate Owned(rows: Receipts, jobs: set<string>) {
    forall i :: 0 <= i < |rows| ==> rows[i].jobID in jobs
  }

  lemma {:induction false} KeptAreOwned(rows: Receipts, jobs: set<string>)
    ensures Owned(Kept(rows, jobs), jobs)
  {
    if rows != [] {
      KeptAreOwned(rows[..|rows| - 1], jobs);
    }
  }

  lemma OfJobOfOneMore(rows: Receipts, last: ReceiptRow, jobID: string)
    ensures OfJob(rows + [last], jobID) == OfJob(rows, jobID) + if last.jobID == jobID then [last] else []
  {
    assert (rows + [last])[..|rows|] == rows;
  }

  /** What is listed for a job that is kept does not change; nothing else is left. */
  lemma {:induction false} CascadeIsExact(rows: Receipts, jobs: set<string>, jobID: string)
    ensures OfJob(Kept(rows, jobs), jobID) == if jobID in jobs then OfJob(rows, jobID) else []
  {
    if rows != [] {
      var prior, last := rows[..|rows| - 1], rows[|rows| - 1];
      CascadeIsExact(prior, jobs, jobID);
      if last.jobID in jobs {
        OfJobOfOneMore(Kept(prior, jobs), last, jobID);
      } else {
        assert Kept(rows, jobs) == Kept(prior, jobs);
      }
    }
  }
}
