/** One-time codes by phone: the send throttle, the attempt cap, and what they add up to. */
module PhoneOtp {
  import opened Wrappers

  const EXPIRY: int := 300
  const MAX_ATTEMPTS: int := 5
  const WINDOW: int := 900
  const MAX_REQUESTS: int := 5

  datatype Otp = Otp(phone: string, codeHash: string, attempts: int, verified: bool, createdAt: int, expiresAt: int)

  /** A wrong code that was counted against a row, or a login that used one up. */
  datatype Guess = Guess(row: nat, phone: string, at: int)

  /** `rows` in insertion order; a row's index stands for its serial id. */
  datatype World = World(now: int, rows: seq<Otp>, guesses: seq<Guess>, logins: seq<nat>)

  datatype OtpError = InvalidPhone | RateLimited | NoValidOtp | TooManyAttempts | WrongCode

  // ----- the queries -----

  function DialLength(phone: string): nat {
    if phone == "" then 0
    else
      var c := phone[|phone| - 1];
      DialLength(phone[..|phone| - 1]) + if '0' <= c <= '9' || c == '+' then 1 else 0
  }

  predicate ValidPhone(phone: string) { 10 <= DialLength(phone) <= 15 }

  /** SELECT COUNT(*) of the phone's rows created after `after`. */
  function CountAfter(rows: seq<Otp>, phone: string, after: int): nat {
    if rows == [] then 0
    else
      var r := rows[|rows| - 1];
      CountAfter(rows[..|rows| - 1], phone, after) + if r.phone == phone && r.createdAt > after then 1 else 0
  }

  predicate Candidate(r: Otp, phone: string, now: int) {
    r.phone == phone && r.expiresAt > now && !r.verified
  }

  predicate AnyCandidate(rows: seq<Otp>, phone: string, now: int) {
    exists k :: 0 <= k < |rows| && Candidate(rows[k], phone, now)
  }

  /** ORDER BY created_at DESC LIMIT 1: any of the latest candidates. */
  predicate IsLatest(rows: seq<Otp>, phone: string, now: int, k: nat) {
    && k < |rows| && Candidate(rows[k], phone, now)
    && forall i :: 0 <= i < |rows| && Candidate(rows[i], phone, now) ==> rows[i].createdAt <= rows[k].createdAt
  }

  // ----- the steps -----

  datatype Op =
    | Wait(seconds: nat)
    | Send(phone: string, codeHash: string)
    | Verify(phone: string, codeHash: string, pick: nat)

  function Sent(w: World, phone: string, codeHash: string): World {
    if !ValidPhone(phone) || CountAfter(w.rows, phone, w.now - WINDOW) >= MAX_REQUESTS then w
    else w.(rows := w.rows + [Otp(phone, codeHash, 0, false, w.now, w.now + EXPIRY)])
  }

  /** `k` is the row the query returned. */
  function Verified(w: World, phone: string, codeHash: string, k: nat): World
    requires k < |w.rows|
  {
    var row := w.rows[k];
    if row.attempts >= MAX_ATTEMPTS then w
    else if row.codeHash != codeHash then
      w.(rows := w.rows[k := row.(attempts := row.attempts + 1)],
         guesses := w.guesses + [Guess(k, phone, w.now)])
    else
      w.(rows := w.rows[k := row.(verified := true)], logins := w.logins + [k])
  }

  function Step(w: World, op: Op): World {
    match op
    case Wait(d) => w.(now := w.now + d)
    case Send(phone, codeHash) => Sent(w, phone, codeHash)
    case Verify(phone, codeHash, k) =>
      if ValidPhone(phone) && IsLatest(w.rows, phone, w.now, k) then Verified(w, phone, codeHash, k) else w
  }

  function Run(w: World, ops: seq<Op>): World
    decreases |ops|
  {
    if ops == [] then w else Run(Step(w, ops[0]), ops[1..])
  }

  function Init(now: int): World { World(now, [], [], []) }

  // ----- the service -----

  class PhoneOtpService {
    var rows: seq<Otp>
    ghost var guesses: seq<Guess>
    ghost var logins: seq<nat>

    constructor ()
      ensures forall now :: At(now) == Init(now)
    {
      rows := [];
      guesses, logins := [], [];
    }

    ghost function At(now: int): World
      reads this
    {
      World(now, rows, guesses, logins)
    }

    method SendOtp(now: int, phone: string, codeHash: string) returns (r: Result<(), OtpError>)
      modifies this
      ensures At(now) == Step(old(At(now)), Send(phone, codeHash))
      ensures r.Ok? <==> ValidPhone(phone) && CountAfter(old(rows), phone, now - WINDOW) < MAX_REQUESTS
      ensures r == Err(InvalidPhone) <==> !ValidPhone(phone)
    {
      if !ValidPhone(phone) {
        return Err(InvalidPhone);
      }
      var windowStart := now - WINDOW;
      if CountAfter(rows, phone, windowStart) >= MAX_REQUESTS {
        return Err(RateLimited);
      }
      rows := rows + [Otp(phone, codeHash, 0, false, now, now + EXPIRY)];
      return Ok(());
    }

    /** Which of several equally late rows the database returns is not determined. */
    method SelectLatest(phone: string, now: int) returns (k: Option<nat>)
      ensures k.None? <==> !AnyCandidate(rows, phone, now)
      ensures k.Some? ==> IsLatest(rows, phone, now, k.value)
    {
      k := None;
      for i := 0 to |rows|
        invariant k.None? ==> forall j :: 0 <= j < i ==> !Candidate(rows[j], phone, now)
        invariant k.Some? ==> k.value < i && Candidate(rows[k.value], phone, now)
        invariant k.Some? ==>
          forall j :: 0 <= j < i && Candidate(rows[j], phone, now) ==> rows[j].createdAt <= rows[k.value].createdAt
      {
        if Candidate(rows[i], phone, now) && (k.None? || rows[k.value].createdAt <= rows[i].createdAt) {
          k := Some(i);
        }
      }
    }

    method VerifyOtp(now: int, phone: string, codeHash: string) returns (r: Result<(), OtpError>, pick: nat)
      modifies this
      ensures At(now) == Step(old(At(now)), Verify(phone, codeHash, pick))
      ensures r.Ok? <==>
        ValidPhone(phone) && IsLatest(old(rows), phone, now, pick)
        && old(rows)[pick].attempts < MAX_ATTEMPTS && old(rows)[pick].codeHash == codeHash
      ensures r == Err(NoValidOtp) <==> ValidPhone(phone) && forall k :: k in old(rows) ==> !Candidate(k, phone, now)
      ensures r == Err(TooManyAttempts) <==>
        ValidPhone(phone) && IsLatest(old(rows), phone, now, pick) && old(rows)[pick].attempts >= MAX_ATTEMPTS
    {
      pick := 0;
      if !ValidPhone(phone) {
        return Err(InvalidPhone), pick;
      }
      var selected := SelectLatest(phone, now);
      if selected.None? {
        return Err(NoValidOtp), pick;
      }
      pick := selected.value;
      var row := rows[pick];
      if row.attempts >= MAX_ATTEMPTS {
        return Err(TooManyAttempts), pick;
      }
      if row.codeHash != codeHash {
        rows := rows[pick := row.(attempts := row.attempts + 1)];
        guesses := guesses + [Guess(pick, phone, now)];
        return Err(WrongCode), pick;
      }
      rows := rows[pick := row.(verified := true)];
      logins := logins + [pick];
      return Ok(()), pick;
    }
  }
}
