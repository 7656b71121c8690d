/** The associated data under which each kind of record is sealed, and the times
    that go through the database in milliseconds. */
module StoreContexts {
  import opened EgressTypes
  import opened Text
  import Decimal
  import Hex

  /** The Unix epoch, in nanoseconds after Go's zero Time. */
  const EPOCH := 62135596800 * 1_000_000_000

  const MILLISECOND := 1_000_000

  /** Time.UnixMilli rounds toward the past. */
  function Millis(t: Instant): int {
    (t - EPOCH) / MILLISECOND
  }

  function FromMillis(v: int): Instant {
    if v == 0 then 0 else EPOCH + v * MILLISECOND
  }

  /** What the database gives back for a time. */
  function Stored(t: Instant): Instant {
    FromMillis(Millis(t))
  }

  /** A stored time is the time itself cut to the millisecond, unless it falls in the
      first millisecond of 1970, which reads back as the zero Time. */
  lemma StoredTime(t: Instant)
    ensures Millis(t) != 0 ==> 0 <= t - Stored(t) < MILLISECOND
    ensures Millis(t) == 0 ==> Stored(t) == 0 && t - Stored(t) >= EPOCH
    ensures Millis(Stored(t)) == Millis(t) <==> Millis(t) != 0
  {
  }

  /** The epoch is 1969 years of 365 days after year 1 begins, and their leap days. */
  lemma EpochIs1970()
    ensures EPOCH == (1969 * 365 + 1969 / 4 - 1969 / 100 + 1969 / 400) * 24 * 60 * 60 * 1_000_000_000
  {
  }

  /** A millisecond count is a time's distance from the epoch, rounded toward the past. */
  lemma MillisAre(t: Instant, v: int)
    ensures Millis(t) == v <==> v * 1_000_000 <= t - EPOCH < (v + 1) * 1_000_000
    ensures v != 0 ==> FromMillis(v) == EPOCH + v * 1_000_000
    ensures FromMillis(0) == 0
  {
  }

  datatype RecordKind =
    | JobContent(id: string)
    | Receipt(jobID: string, millis: int)
    | Audit(millis: int)
    | UserID
    | Credentials
    | RecoveryHash
    | OAuthTokens

  function Context(k: RecordKind): string {
    match k
    case JobContent(id) => id
    case Receipt(jobID, ms) => "receipt:v1:" + (jobID + (":" + Decimal.OfInt(ms)))
    case Audit(ms) => "audit:v1:" + Decimal.OfInt(ms)
    case UserID => "auth:user-id:v1"
    case Credentials => "auth:credentials:v1"
    case RecoveryHash => "auth:recovery-hash:v1"
    case OAuthTokens => "x:oauth-tokens:v1"
  }

  /** randomID gives 32 lowercase hexadecimal digits. */
  predicate IsHexID(id: string) {
    |id| == 32 && forall i :: 0 <= i < |id| ==> '0' <= id[i] <= '9' || 'a' <= id[i] <= 'f'
  }

  /** The IDs that the service draws, sixteen random bytes in hexadecimal, are of this form,
      and differ when the bytes do. */
  lemma DrawnIDsAreHex(raw: seq<byte>, other: seq<byte>)
    requires |raw| == 16
    ensures IsHexID(Hex.Encode(raw))
    ensures Hex.Encode(raw) == Hex.Encode(other) ==> raw == other
  {
    Hex.EncodingIsLower(raw);
    forall i | 0 <= i < 32 ensures '0' <= Hex.Encode(raw)[i] <= '9' || 'a' <= Hex.Encode(raw)[i] <= 'f' {
      assert Hex.Value(Hex.Encode(raw)[i]).Some?;
    }
    if Hex.Encode(raw) == Hex.Encode(other) {
      Hex.EncodeInjective(raw, other);
    }
  }

  /** The contexts as they are written. */
  lemma ContextsAre(jobID: string)
    ensures Context(JobContent(jobID)) == jobID
    ensures Context(Receipt("ab", 12)) == "receipt:v1:ab:12" && Context(Receipt("ab", -5)) == "receipt:v1:ab:-5"
    ensures Context(Audit(12)) == "audit:v1:12" && Context(Audit(0)) == "audit:v1:0"
    ensures Context(UserID) == "auth:user-id:v1" && Context(Credentials) == "auth:credentials:v1"
    ensures Context(RecoveryHash) == "auth:recovery-hash:v1" && Context(OAuthTokens) == "x:oauth-tokens:v1"
  {
    assert Decimal.OfNat(1) == "1" && Decimal.OfNat(12) == "12" && Decimal.OfNat(5) == "5" && Decimal.OfNat(0) == "0";
  }

  ghost predicate HexIDs(k: RecordKind) {
    k.JobContent? ==> IsHexID(k.id)
  }

  /** The text after the last colon. */
  lemma LastColonSplits(a: string, m: string, b: string, n: string)
    requires a + (":" + m) == b + (":" + n) && ':' !in m && ':' !in n
    ensures a == b && m == n
  {
    var s := a + (":" + m);
    assert s[|a|] == ':' && s[|b|] == ':';
    assert forall i :: |a| < i < |s| ==> s[i] == m[i - |a| - 1];
    assert forall i :: |b| < i < |s| ==> s[i] == n[i - |b| - 1];
    assert |a| == |b|;
    assert a == s[..|a|] && b == s[..|b|];
    assert m == s[|a| + 1..] && n == s[|b| + 1..];
  }

  /** The receipt context determines job and millisecond, even if the job ID has colons. */
  lemma ReceiptContextInjective(j1: string, m1: int, j2: string, m2: int)
    requires Context(Receipt(j1, m1)) == Context(Receipt(j2, m2))
    ensures j1 == j2 && m1 == m2
  {
    var prefix := "receipt:v1:";
    assert Context(Receipt(j1, m1))[|prefix|..] == j1 + (":" + Decimal.OfInt(m1));
    assert Context(Receipt(j2, m2))[|prefix|..] == j2 + (":" + Decimal.OfInt(m2));
    Decimal.OfIntSign(m1);
    Decimal.OfIntSign(m2);
    LastColonSplits(j1, Decimal.OfInt(m1), j2, Decimal.OfInt(m2));
    Decimal.OfIntInjective(m1, m2);
  }

  /** Where the first colon is, and what stands before it, tells most kinds apart. */
  lemma ContextShape(k: RecordKind)
    requires HexIDs(k)
    ensures var c := Context(k);
            match k
            case JobContent(_) => ':' !in c
            case Receipt(_, _) => |c| > 11 && c[0] == 'r' && c[7] == ':'
            case Audit(_) => |c| > 9 && c[0] == 'a' && c[2] == 'd' && c[5] == ':'
            case UserID => |c| == 15 && c[0] == 'a' && c[2] == 't' && c[4] == ':'
            case Credentials => |c| == 19 && c[0] == 'a' && c[2] == 't' && c[4] == ':'
            case RecoveryHash => |c| == 21 && c[0] == 'a' && c[2] == 't' && c[4] == ':'
            case OAuthTokens => c[0] == 'x' && c[1] == ':'
  {
  }

  /** Records of different kinds, and different records of one kind, never share a
      context, when the IDs of jobs are those the service draws. */
  lemma ContextInjective(a: RecordKind, b: RecordKind)
    requires HexIDs(a) && HexIDs(b) && Context(a) == Context(b)
    ensures a == b
  {
    ContextShape(a);
    ContextShape(b);
    if a.Receipt? && b.Receipt? {
      ReceiptContextInjective(a.jobID, a.millis, b.jobID, b.millis);
    } else if a.Audit? && b.Audit? {
      assert Context(a)[9..] == Decimal.OfInt(a.millis) && Context(b)[9..] == Decimal.OfInt(b.millis);
      Decimal.OfIntInjective(a.millis, b.millis);
    }
  }

  /** A job ID that is not hexadecimal could collide with another kind. */
  lemma FreeFormIDsCollide()
    ensures Context(JobContent("audit:v1:0")) == Context(Audit(0))
  {
  }

  /** The context recomputed on reading is the one used on writing exactly when the
      creation time does not fall in the first millisecond of 1970. */
  lemma ReadContextIsWriteContext(jobID: string, created: Instant)
    ensures Context(Receipt(jobID, Millis(Stored(created)))) == Context(Receipt(jobID, Millis(created)))
       <==> Millis(created) != 0
    ensures Context(Audit(Millis(Stored(created)))) == Context(Audit(Millis(created))) <==> Millis(created) != 0
  {
    StoredTime(created);
    if Millis(created) == 0 {
      if Context(Receipt(jobID, Millis(Stored(created)))) == Context(Receipt(jobID, Millis(created))) {
        ReceiptContextInjective(jobID, Millis(Stored(created)), jobID, Millis(created));
      }
      if Context(Audit(Millis(Stored(created)))) == Context(Audit(Millis(created))) {
        ContextInjective(Audit(Millis(Stored(created))), Audit(Millis(created)));
      }
    }
  }
}
