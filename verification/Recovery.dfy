/** The recovery code and the limit on wrong guesses, for requests handled one after
    another. */
module Recovery {
  import opened Wrappers
  import opened EgressTypes

  const WINDOW := 15 * 60 * 1_000_000_000
  const LIMIT := 5

  /** The failures newer than the window. */
  function Recent(fails: seq<Instant>, now: Instant): seq<Instant> {
    if fails == [] then []
    else
      Recent(fails[..|fails| - 1], now)
      + if fails[|fails| - 1] > now - WINDOW then [fails[|fails| - 1]] else []
  }

  /** What the random source and the store make of a rotation. */
  datatype Rotation = Lost | Issued(code: string)

  /** A login may come before any passkey is enrolled; `allowAt` is the clock when the
      attempt is checked, `recordAt` when it fails. A rotation is authorized by a session and
      its CSRF token. A registration is verified by its ceremony and credential, and issues a
      code if it is the bootstrap. `session` says whether a session could be issued at the
      end, `delivered` whether the response reached the client. */
  datatype Request =
    | Login(enrolled: bool, code: string, allowAt: Instant, recordAt: Instant, rotation: Rotation,
            session: bool, delivered: bool)
    | Rotate(authorized: bool, rotation: Rotation, delivered: bool)
    | Register(verified: bool, bootstrap: bool, rotation: Rotation, session: bool, delivered: bool)

  /** What the client gets to see. */
  datatype Answer =
    | Unavailable | Refused | Limited | Denied | RotationFailed | SessionFailed | Registered | Undelivered
    | Replaced(code: string)

  /** The window of failures and the stored hash, with the failures recorded since the
      last rotation, the codes issued so far, and the latest clock. */
  datatype State = State(window: seq<Instant>, hash: Option<string>, recorded: seq<Instant>, codes: seq<string>,
                         clock: Instant)

  function Rotated(digest: string -> string, s: State, rotation: Rotation): State {
    match rotation
    case Lost => s
    case Issued(code) => State([], Some(digest(code)), [], s.codes + [code], s.clock)
  }

  function Checked(s: State, at: Instant): State {
    s.(window := Recent(s.window, at), clock := at)
  }

  function Failed(s: State, at: Instant): State {
    s.(window := s.window + [at], recorded := s.recorded + [at], clock := at)
  }

  predicate Accepts(digest: string -> string, s: State, code: string) {
    s.hash == Some(digest(code))
  }

  function Serve(digest: string -> string, s: State, request: Request): State {
    match request
    case Rotate(authorized, rotation, _) => if authorized then Rotated(digest, s, rotation) else s
    case Register(verified, bootstrap, rotation, _, _) =>
      if verified && bootstrap then Rotated(digest, s, rotation) else s
    case Login(enrolled, code, allowAt, recordAt, rotation, _, _) =>
      if !enrolled then s
      else if |Checked(s, allowAt).window| >= LIMIT then Checked(s, allowAt)
      else if Accepts(digest, s, code) then Rotated(digest, Checked(s, allowAt), rotation)
      else Failed(Checked(s, allowAt), recordAt)
  }

  /** The response that carries a code. */
  function Written(code: string, delivered: bool): Answer {
    if delivered then Replaced(code) else Undelivered
  }

  function AnswerTo(digest: string -> string, s: State, request: Request): Answer {
    match request
    case Rotate(authorized, rotation, delivered) =>
      if !authorized then Refused
      else if rotation.Lost? then RotationFailed
      else Written(rotation.code, delivered)
    case Register(verified, bootstrap, rotation, session, delivered) =>
      if !verified then Refused
      else if bootstrap && rotation.Lost? then RotationFailed
      else if !session then SessionFailed
      else if bootstrap then Written(rotation.code, delivered)
      else Registered
    case Login(enrolled, code, allowAt, _, rotation, session, delivered) =>
      if !enrolled then Unavailable
      else if |Recent(s.window, allowAt)| >= LIMIT then Limited
      else if !Accepts(digest, s, code) then Denied
      else if rotation.Lost? then RotationFailed
      else if !session then SessionFailed
      else Written(rotation.code, delivered)
  }

  ghost function Run(digest: string -> string, start: State, requests: seq<Request>): State {
    if requests == [] then start
    else Serve(digest, Run(digest, start, requests[..|requests| - 1]), requests[|requests| - 1])
  }

  /** The clock never goes back. */
  ghost predicate InOrder(digest: string -> string, start: State, requests: seq<Request>) {
    requests == []
    || (InOrder(digest, start, requests[..|requests| - 1])
        && Follows(Run(digest, start, requests[..|requests| - 1]), requests[|requests| - 1]))
  }

  predicate Follows(s: State, request: Request) {
    request.Login? && request.enrolled ==> s.clock <= request.allowAt <= request.recordAt
  }

  ghost predicate Ordered(fails: seq<Instant>) {
    forall i, j :: 0 <= i < j < |fails| ==> fails[i] <= fails[j]
  }

  /** Any n + 1 consecutive recorded failures span the window. */
  ghost predicate Spread(recorded: seq<Instant>, n: nat) {
    forall i :: 0 <= i < |recorded| - n ==> recorded[i + n] - recorded[i] >= WINDOW
  }

  lemma RecentOfOneMore(fails: seq<Instant>, i: nat, now: Instant)
    requires i < |fails|
    ensures Recent(fails[..i + 1], now) == Recent(fails[..i], now) + if fails[i] > now - WINDOW then [fails[i]] else []
  {
    assert fails[..i + 1][..i] == fails[..i];
  }

  /** Where the recent failures start in an ordered sequence. */
  lemma {:induction false} RecentStarts(fails: seq<Instant>, now: Instant) returns (k: nat)
    requires Ordered(fails)
    ensures k <= |fails|
    ensures forall i :: 0 <= i < k ==> fails[i] <= now - WINDOW
    ensures forall i :: k <= i < |fails| ==> fails[i] > now - WINDOW
  {
    if fails == [] || fails[|fails| - 1] <= now - WINDOW {
      k := |fails|;
    } else {
      k := RecentStarts(fails[..|fails| - 1], now);
    }
  }

  lemma {:induction false} RecentOfBoth(a: seq<Instant>, b: seq<Instant>, now: Instant)
    ensures Recent(a + b, now) == Recent(a, now) + Recent(b, now)
  {
    if b == [] {
      assert a + b == a;
    } else {
      RecentOfBoth(a, b[..|b| - 1], now);
      assert (a + b)[..|a + b| - 1] == a + b[..|b| - 1];
    }
  }

  lemma {:induction false} RecentOfOld(fails: seq<Instant>, now: Instant)
    requires forall i :: 0 <= i < |fails| ==> fails[i] <= now - WINDOW
    ensures Recent(fails, now) == []
  {
    if fails != [] {
      RecentOfOld(fails[..|fails| - 1], now);
    }
  }

  lemma {:induction false} RecentOfNew(fails: seq<Instant>, now: Instant)
    requires forall i :: 0 <= i < |fails| ==> fails[i] > now - WINDOW
    ensures Recent(fails, now) == fails
  {
    if fails != [] {
      RecentOfNew(fails[..|fails| - 1], now);
      assert fails == fails[..|fails| - 1] + [fails[|fails| - 1]];
    }
  }

  /** Forgetting old failures loses nothing that a later check would count. */
  lemma ForgettingIsHarmless(recorded: seq<Instant>, k: nat, now: Instant)
    requires k <= |recorded| && forall i :: 0 <= i < k ==> recorded[i] <= now - WINDOW
    ensures Recent(recorded[k..], now) == Recent(recorded, now)
  {
    assert recorded[..k] + recorded[k..] == recorded;
    RecentOfBoth(recorded[..k], recorded[k..], now);
    RecentOfOld(recorded[..k], now);
  }

  /** Of an ordered sequence the recent part is a suffix. */
  lemma RecentIsSuffix(fails: seq<Instant>, now: Instant)
    requires Ordered(fails)
    ensures |Recent(fails, now)| <= |fails|
    ensures Recent(fails, now) == fails[|fails| - |Recent(fails, now)|..]
    ensures forall i :: 0 <= i < |fails| - |Recent(fails, now)| ==> now - fails[i] >= 15 * 60 * 1_000_000_000
    ensures forall i :: |fails| - |Recent(fails, now)| <= i < |fails| ==> now - fails[i] < 15 * 60 * 1_000_000_000
  {
    var k := RecentStarts(fails, now);
    RecentOfNew(fails[k..], now);
    ForgettingIsHarmless(fails, k, now);
  }

  /** The window is the end of what was recorded, and what it has lost is old. */
  ghost predicate WindowOk(s: State) {
    && |s.window| <= |s.recorded|
    && s.window == s.recorded[|s.recorded| - |s.window|..]
    && Ordered(s.recorded)
    && (forall i :: 0 <= i < |s.recorded| ==> s.recorded[i] <= s.clock)
    && (forall i :: 0 <= i < |s.recorded| - |s.window| ==> s.recorded[i] <= s.clock - WINDOW)
  }

  ghost predicate Inv(digest: string -> string, s: State) {
    && WindowOk(s)
    && Spread(s.recorded, LIMIT)
    && (s.codes != [] ==> s.hash == Some(digest(s.codes[|s.codes| - 1])))
  }

  /** A check cuts the window to the recent end of the whole record. */
  lemma CheckCutsRecord(recorded: seq<Instant>, window: seq<Instant>, clock: Instant, now: Instant)
    requires |window| <= |recorded| && window == recorded[|recorded| - |window|..] && clock <= now
    requires forall i :: 0 <= i < |recorded| - |window| ==> recorded[i] <= clock - WINDOW
    ensures Recent(window, now) == Recent(recorded, now)
  {
    ForgettingIsHarmless(recorded, |recorded| - |window|, now);
  }

  lemma CutKeepsWindow(s: State, now: Instant)
    requires WindowOk(s) && s.clock <= now
    ensures WindowOk(s.(window := Recent(s.recorded, now), clock := now))
  {
    RecentIsSuffix(s.recorded, now);
  }

  lemma CheckKeepsWindow(s: State, now: Instant)
    requires WindowOk(s) && s.clock <= now
    ensures WindowOk(Checked(s, now))
    ensures Recent(s.window, now) == Recent(s.recorded, now)
    ensures |Recent(s.window, now)| <= |s.window|
  {
    CheckCutsRecord(s.recorded, s.window, s.clock, now);
    CutKeepsWindow(s, now);
    RecentIsSuffix(s.window, now);
  }

  lemma FailureKeepsWindow(s: State, at: Instant)
    requires WindowOk(s) && s.clock <= at
    ensures WindowOk(Failed(s, at))
  {
  }

  /** A failure recorded with fewer than n in the window keeps any n + 1 apart. */
  lemma FailureKeepsSpread(s: State, at: Instant, n: nat)
    requires WindowOk(s) && |s.window| < n && s.clock <= at && Spread(s.recorded, n)
    ensures Spread(s.recorded + [at], n)
  {
    var recorded := s.recorded + [at];
    forall i | 0 <= i < |recorded| - n ensures recorded[i + n] - recorded[i] >= WINDOW {
      assert recorded[i] == s.recorded[i];
      if i + n < |s.recorded| {
        assert recorded[i + n] == s.recorded[i + n];
      }
    }
  }

  lemma RotatedKeepsInv(digest: string -> string, s: State, rotation: Rotation)
    requires Inv(digest, s)
    ensures Inv(digest, Rotated(digest, s, rotation))
  {
  }

  lemma CheckedKeepsInv(digest: string -> string, s: State, at: Instant)
    requires Inv(digest, s) && s.clock <= at
    ensures Inv(digest, Checked(s, at))
  {
    CheckKeepsWindow(s, at);
  }

  lemma FailedKeepsInv(digest: string -> string, s: State, at: Instant)
    requires Inv(digest, s) && s.clock <= at && |s.window| < LIMIT
    ensures Inv(digest, Failed(s, at))
  {
    FailureKeepsWindow(s, at);
    FailureKeepsSpread(s, at, LIMIT);
  }

  lemma LoginKeepsInv(digest: string -> string, s: State, login: Request)
    requires Inv(digest, s) && Follows(s, login) && login.Login? && login.enrolled
    ensures Inv(digest, Serve(digest, s, login))
  {
    CheckedKeepsInv(digest, s, login.allowAt);
    var seen := Checked(s, login.allowAt);
    if |seen.window| < LIMIT {
      RotatedKeepsInv(digest, seen, login.rotation);
      FailedKeepsInv(digest, seen, login.recordAt);
    }
  }

  lemma ServeKeepsInv(digest: string -> string, s: State, request: Request)
    requires Inv(digest, s) && Follows(s, request)
    ensures Inv(digest, Serve(digest, s, request))
  {
    if request.Login? {
      if request.enrolled {
        LoginKeepsInv(digest, s, request);
      }
    } else {
      RotatedKeepsInv(digest, s, request.rotation);
    }
  }

  ghost function Start(hash: Option<string>, clock: Instant): State {
    State([], hash, [], [], clock)
  }

  lemma {:induction false} RunsKeepInv(digest: string -> string, hash: Option<string>, clock: Instant,
                                       requests: seq<Request>)
    requires InOrder(digest, Start(hash, clock), requests)
    ensures Inv(digest, Run(digest, Start(hash, clock), requests))
  {
    if requests != [] {
      RunsKeepInv(digest, hash, clock, requests[..|requests| - 1]);
      ServeKeepsInv(digest, Run(digest, Start(hash, clock), requests[..|requests| - 1]), requests[|requests| - 1]);
    }
  }

  /** Between two rotations, any six consecutive wrong guesses take fifteen minutes. */
  lemma GuessesAreLimited(digest: string -> string, hash: Option<string>, clock: Instant, requests: seq<Request>,
                          i: nat)
    requires InOrder(digest, Start(hash, clock), requests)
    requires i + 5 < |Run(digest, Start(hash, clock), requests).recorded|
    ensures var recorded := Run(digest, Start(hash, clock), requests).recorded;
            recorded[i + 5] - recorded[i] >= 15 * 60 * 1_000_000_000
  {
    RunsKeepInv(digest, hash, clock, requests);
  }

  /** A login is limited exactly when five failures of the whole record since the last
      rotation are newer than fifteen minutes, although the window is cut at every check. */
  lemma LimitedIffFiveRecent(digest: string -> string, hash: Option<string>, clock: Instant, requests: seq<Request>,
                             login: Request)
    requires InOrder(digest, Start(hash, clock), requests) && login.Login?
    requires Follows(Run(digest, Start(hash, clock), requests), login)
    ensures var s := Run(digest, Start(hash, clock), requests);
            AnswerTo(digest, s, login) == Limited <==> login.enrolled && |Recent(s.recorded, login.allowAt)| >= 5
  {
    var s := Run(digest, Start(hash, clock), requests);
    RunsKeepInv(digest, hash, clock, requests);
    if login.enrolled {
      CheckCutsRecord(s.recorded, s.window, s.clock, login.allowAt);
    }
  }

  /** Only the most recently issued code is accepted, when hashes do not collide. */
  lemma OnlyLatestCodeAccepted(digest: string -> string, hash: Option<string>, clock: Instant, requests: seq<Request>,
                               code: string)
    requires InOrder(digest, Start(hash, clock), requests)
    requires forall a, b :: digest(a) == digest(b) ==> a == b
    requires Run(digest, Start(hash, clock), requests).codes != []
    ensures var s := Run(digest, Start(hash, clock), requests);
            Accepts(digest, s, code) <==> code == s.codes[|s.codes| - 1]
  {
    var s := Run(digest, Start(hash, clock), requests);
    RunsKeepInv(digest, hash, clock, requests);
    assert s.hash == Some(digest(s.codes[|s.codes| - 1]));
  }

  /** Exactly the denied logins are recorded as failures, and exactly a new code clears them. */
  lemma DenialsAreRecorded(digest: string -> string, s: State, request: Request)
    ensures Serve(digest, s, request).recorded
         == if AnswerTo(digest, s, request) == Denied then s.recorded + [request.recordAt]
            else if Issues(digest, s, request) then []
            else s.recorded
    ensures AnswerTo(digest, s, request) == Denied ==> request.Login?
  {
  }

  /** What each answer means. */
  lemma AnswersAre(digest: string -> string, s: State, request: Request)
    ensures var answer := AnswerTo(digest, s, request);
            && (answer == Unavailable <==> request.Login? && !request.enrolled)
            && (answer == Limited <==> request.Login? && request.enrolled && |Recent(s.window, request.allowAt)| >= 5)
            && (answer == Denied <==>
                  && request.Login? && request.enrolled && |Recent(s.window, request.allowAt)| < 5
                  && s.hash != Some(digest(request.code)))
            && (answer == Refused <==>
                  (request.Rotate? && !request.authorized) || (request.Register? && !request.verified))
            && (answer == Registered <==>
                  request.Register? && request.verified && !request.bootstrap && request.session)
            && (answer == RotationFailed ==> request.rotation.Lost?)
            && (answer == Undelivered ==> request.rotation.Issued? && !request.delivered)
            && (answer == SessionFailed ==> !request.Rotate? && !request.session)
  {
  }

  // Which codes get seen.

  /** The request issues a code. */
  predicate Issues(digest: string -> string, s: State, request: Request) {
    && request.rotation.Issued?
    && match request
       case Rotate(authorized, _, _) => authorized
       case Register(verified, bootstrap, _, _, _) => verified && bootstrap
       case Login(enrolled, code, allowAt, _, _, _, _) =>
         enrolled && |Recent(s.window, allowAt)| < LIMIT && Accepts(digest, s, code)
  }

  /** The request issues a code, and then its session fails or its response is lost. */
  predicate LosesCode(digest: string -> string, s: State, request: Request) {
    Issues(digest, s, request) && !(request.delivered && (request.Rotate? || request.session))
  }

  lemma IssueIsAnswered(digest: string -> string, s: State, request: Request)
    ensures Serve(digest, s, request).codes == s.codes + if Issues(digest, s, request) then [request.rotation.code]
              else []
    ensures forall code :: AnswerTo(digest, s, request) == Replaced(code) <==>
              && Issues(digest, s, request) && !LosesCode(digest, s, request) && code == request.rotation.code
    ensures Serve(digest, s, request).hash
         == if Issues(digest, s, request) then Some(digest(request.rotation.code)) else s.hash
  {
  }

  ghost predicate IssuesAt(digest: string -> string, start: State, requests: seq<Request>, k: int) {
    0 <= k < |requests| && Issues(digest, Run(digest, start, requests[..k]), requests[k])
  }

  /** Request k issued a code, and no later one did. */
  ghost predicate LastIssue(digest: string -> string, start: State, requests: seq<Request>, k: int) {
    IssuesAt(digest, start, requests, k) && forall j :: j > k ==> !IssuesAt(digest, start, requests, j)
  }

  /** The answer to request k showed this code. */
  ghost predicate ShownAt(digest: string -> string, start: State, requests: seq<Request>, k: int, code: string) {
    0 <= k < |requests| && AnswerTo(digest, Run(digest, start, requests[..k]), requests[k]) == Replaced(code)
  }

  lemma RunOneMore(digest: string -> string, start: State, requests: seq<Request>, k: nat)
    requires k < |requests|
    ensures Run(digest, start, requests[..k + 1]) == Serve(digest, Run(digest, start, requests[..k]), requests[k])
  {
    assert requests[..k + 1][..k] == requests[..k];
  }

  lemma {:induction false} CodesGrow(digest: string -> string, start: State, requests: seq<Request>, k: nat, n: nat)
    requires k <= n <= |requests|
    ensures Run(digest, start, requests[..k]).codes <= Run(digest, start, requests[..n]).codes
    decreases n
  {
    if k < n {
      CodesGrow(digest, start, requests, k, n - 1);
      RunOneMore(digest, start, requests, n - 1);
      IssueIsAnswered(digest, Run(digest, start, requests[..n - 1]), requests[n - 1]);
    }
  }

  /** The code issued by request k is in its place among all codes. */
  lemma CodeInPlace(digest: string -> string, start: State, requests: seq<Request>, k: nat, n: nat)
    requires k < n <= |requests| && IssuesAt(digest, start, requests, k)
    ensures var place := |Run(digest, start, requests[..k]).codes|;
            var codes := Run(digest, start, requests[..n]).codes;
            place < |codes| && codes[place] == requests[k].rotation.code
  {
    RunOneMore(digest, start, requests, k);
    IssueIsAnswered(digest, Run(digest, start, requests[..k]), requests[k]);
    CodesGrow(digest, start, requests, k + 1, n);
  }

  /** The last code is that of the last issuing request, and its hash is the one in force. */
  lemma {:induction false} LastCodeIsLastIssue(digest: string -> string, start: State, requests: seq<Request>, n: nat)
    returns (k: nat)
    requires n <= |requests| && start.codes == [] && Run(digest, start, requests[..n]).codes != []
    ensures k < n && IssuesAt(digest, start, requests, k)
    ensures forall j :: k < j < n ==> !IssuesAt(digest, start, requests, j)
    ensures var s := Run(digest, start, requests[..n]);
            && s.codes == Run(digest, start, requests[..k]).codes + [requests[k].rotation.code]
            && s.hash == Some(digest(requests[k].rotation.code))
  {
    RunOneMore(digest, start, requests, n - 1);
    IssueIsAnswered(digest, Run(digest, start, requests[..n - 1]), requests[n - 1]);
    if Issues(digest, Run(digest, start, requests[..n - 1]), requests[n - 1]) {
      k := n - 1;
    } else {
      k := LastCodeIsLastIssue(digest, start, requests, n - 1);
    }
  }

  ghost predicate Distinct(codes: seq<string>) {
    forall i, j :: 0 <= i < j < |codes| ==> codes[i] != codes[j]
  }

  /** An earlier request cannot have shown the last code. */
  lemma OnlyLastIssueShows(digest: string -> string, start: State, requests: seq<Request>, k: nat, j: nat)
    requires k < |requests| && j < |requests| && j != k
    requires LastIssue(digest, start, requests, k) && Distinct(Run(digest, start, requests).codes)
    ensures !ShownAt(digest, start, requests, j, requests[k].rotation.code)
  {
    IssueIsAnswered(digest, Run(digest, start, requests[..j]), requests[j]);
    if IssuesAt(digest, start, requests, j) {
      assert requests[..|requests|] == requests;
      CodeInPlace(digest, start, requests, j, k);
      CodeInPlace(digest, start, requests, j, |requests|);
      CodeInPlace(digest, start, requests, k, |requests|);
    }
  }

  /** Over any run in which codes do not repeat, the code in force has been shown to somebody
      exactly if the last request that issued a code did not lose it. */
  lemma CodeInForceIsShownIff(digest: string -> string, hash: Option<string>, clock: Instant, requests: seq<Request>)
    requires var codes := Run(digest, Start(hash, clock), requests).codes; codes != [] && Distinct(codes)
    ensures var s := Run(digest, Start(hash, clock), requests);
            var code := s.codes[|s.codes| - 1];
            && s.hash == Some(digest(code))
            && ((exists j :: ShownAt(digest, Start(hash, clock), requests, j, code)) <==>
                (exists k :: && LastIssue(digest, Start(hash, clock), requests, k)
                             && !LosesCode(digest, Run(digest, Start(hash, clock), requests[..k]), requests[k])))
  {
    var start := Start(hash, clock);
    assert requests[..|requests|] == requests;
    var k := LastCodeIsLastIssue(digest, start, requests, |requests|);
    assert LastIssue(digest, start, requests, k);
    var code := requests[k].rotation.code;
    IssueIsAnswered(digest, Run(digest, start, requests[..k]), requests[k]);
    forall j | ShownAt(digest, start, requests, j, code) ensures j == k {
      if j != k {
        OnlyLastIssueShows(digest, start, requests, k, j);
      }
    }
    forall k' | LastIssue(digest, start, requests, k') ensures k' == k {
    }
    if !LosesCode(digest, Run(digest, start, requests[..k]), requests[k]) {
      assert ShownAt(digest, start, requests, k, code);
    }
  }

  /** One login is enough to lose a code: the old one no longer opens anything, and the new
      one was shown to nobody. */
  lemma LoginCanLoseCode(digest: string -> string, old_: string, new_: string, clock: Instant, session: bool,
                         delivered: bool)
    requires digest(old_) != digest(new_) && !(session && delivered)
    ensures var start := Start(Some(digest(old_)), clock);
            var requests := [Login(true, old_, clock, clock, Issued(new_), session, delivered)];
            var s := Run(digest, start, requests);
            && Accepts(digest, s, new_) && !Accepts(digest, s, old_)
            && forall k, code :: !ShownAt(digest, start, requests, k, code)
  {
    var start := Start(Some(digest(old_)), clock);
    var requests := [Login(true, old_, clock, clock, Issued(new_), session, delivered)];
    assert requests[..0] == [];
    RunOneMore(digest, start, requests, 0);
    assert requests[..1] == requests;
  }

  /** The fields of the manager: a growing array of failures of which the first `count`
      are in use, and the hash of the current code. */
  class Manager {
    var fails: array<Instant>
    var count: nat
    var recoveryHash: string
    var recoverySet: bool
    const digest: string -> string

    ghost predicate Valid() reads this {
      count <= fails.Length
    }

    ghost function Failures(): seq<Instant>
      requires Valid()
      reads this, fails
    {
      fails[..count]
    }

    ghost function Hash(): Option<string> reads this {
      if recoverySet then Some(recoveryHash) else None
    }

    constructor (digest: string -> string, stored: Option<string>)
      ensures Valid() && fresh(fails) && Failures() == [] && Hash() == stored && this.digest == digest
    {
      fails := new Instant[0];
      count := 0;
      this.digest := digest;
      recoverySet := stored.Some?;
      recoveryHash := if stored.Some? then stored.value else "";
    }

    /** Filters the array in place: the kept failures move to its front. */
    method AllowRecoveryAttempt(now: Instant) returns (allowed: bool)
      requires Valid()
      modifies this`count, fails
      ensures Valid() && Failures() == Recent(old(Failures()), now)
      ensures allowed <==> |Failures()| < LIMIT
    {
      var cutoff := now - WINDOW;
      var kept := 0;
      ghost var before := fails[..count];
      for i := 0 to count
        invariant 0 <= kept <= i
        invariant count == |before| && Valid()
        invariant fails[..kept] == Recent(before[..i], now)
        invariant forall k :: i <= k < count ==> fails[k] == before[k]
      {
        RecentOfOneMore(before, i, now);
        var failure := fails[i];
        ghost var sofar := fails[..kept];
        if failure > cutoff {
          fails[kept] := failure;
          kept := kept + 1;
          assert fails[..kept] == sofar + [failure];
        }
      }
      assert before[..|before|] == before;
      count := kept;
      return count < LIMIT;
    }

    method RecordRecoveryFailure(now: Instant)
      requires Valid()
      modifies this`fails, this`count, fails
      ensures Valid() && Failures() == old(Failures()) + [now]
      ensures fails == old(fails) || fresh(fails)
    {
      if count == fails.Length {
        var larger := new Instant[2 * count + 1];
        for i := 0 to count
          invariant unchanged(this) && unchanged(fails)
          invariant larger[..i] == fails[..i]
        {
          larger[i] := fails[i];
        }
        fails := larger;
      }
      fails[count] := now;
      count := count + 1;
    }

    method RotateRecoveryCode(rotation: Rotation) returns (code: Option<string>)
      requires Valid()
      modifies this`fails, this`count, this`recoveryHash, this`recoverySet
      ensures Valid() && (fails == old(fails) || fresh(fails))
      ensures code == if rotation.Lost? then None else Some(rotation.code)
      ensures rotation.Lost? ==> unchanged(this)
      ensures rotation.Issued? ==> Failures() == [] && Hash() == Some(digest(rotation.code))
    {
      if rotation.Lost? {
        return None;
      }
      recoveryHash := digest(rotation.code);
      recoverySet := true;
      fails := new Instant[0];
      count := 0;
      return Some(rotation.code);
    }

    method ValidRecoveryCode(value: string) returns (ok: bool)
      ensures ok <==> Hash() == Some(digest(value))
    {
      return recoverySet && digest(value) == recoveryHash;
    }

    /** One recovery login, which does to the fields what Serve does to the state. */
    method RecoveryLogin(login: Request, ghost s: State) returns (answer: Answer)
      requires Valid() && login.Login?
      requires s.window == Failures() && s.hash == Hash()
      modifies this, fails
      ensures Valid()
      ensures Failures() == Serve(digest, s, login).window && Hash() == Serve(digest, s, login).hash
      ensures answer == AnswerTo(digest, s, login)
    {
      if !login.enrolled {
        return Unavailable;
      }
      var allowed := AllowRecoveryAttempt(login.allowAt);
      if !allowed {
        return Limited;
      }
      var valid := ValidRecoveryCode(login.code);
      if !valid {
        RecordRecoveryFailure(login.recordAt);
        return Denied;
      }
      var replacement := RotateRecoveryCode(login.rotation);
      if replacement.None? {
        return RotationFailed;
      }
      if !login.session {
        return SessionFailed;
      }
      return Written(replacement.value, login.delivered);
    }

    /** One request for a new code, likewise. */
    method RecoveryRotate(request: Request, ghost s: State) returns (answer: Answer)
      requires Valid() && request.Rotate?
      requires s.window == Failures() && s.hash == Hash()
      modifies this
      ensures Valid()
      ensures Failures() == Serve(digest, s, request).window && Hash() == Serve(digest, s, request).hash
      ensures answer == AnswerTo(digest, s, request)
    {
      if !request.authorized {
        return Refused;
      }
      var replacement := RotateRecoveryCode(request.rotation);
      if replacement.None? {
        return RotationFailed;
      }
      return Written(replacement.value, request.delivered);
    }

    /** The end of a passkey registration, likewise. */
    method RegisterFinish(request: Request, ghost s: State) returns (answer: Answer)
      requires Valid() && request.Register?
      requires s.window == Failures() && s.hash == Hash()
      modifies this
      ensures Valid()
      ensures Failures() == Serve(digest, s, request).window && Hash() == Serve(digest, s, request).hash
      ensures answer == AnswerTo(digest, s, request)
    {
      if !request.verified {
        return Refused;
      }
      var code: Option<string> := None;
      if request.bootstrap {
        code := RotateRecoveryCode(request.rotation);
        if code.None? {
          return RotationFailed;
        }
      }
      if !request.session {
        return SessionFailed;
      }
      return if code.Some? then Written(code.value, request.delivered) else Registered;
    }
  }
}
