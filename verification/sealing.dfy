/** Lending requests, chain records ("accounts") and their proof-of-work
    sealing, as `LendingRequest` and `Account` in lending_requests.py build
    them. SHA-256 is an uninterpreted function `sha` passed in by the caller. */
module Sealing {
  import opened Base

  /** A point in time; only its ordering and its text matter to the ledger. */
  type Timestamp = nat

  /** A hexadecimal digest as text. */
  type Digest = string

  /** The hash function: SHA-256 followed by hex encoding. */
  type Hasher = string -> string

  /** `LendingRequestM`: a mint request has no lender (`None`). */
  datatype Request = Request(
    lender: Option<string>,
    borrower: string,
    amount: int,
    requestDate: Timestamp,
    requestHash: Digest)

  /** `AccountM` together with the counter the sealing search found; the
      genesis record has no `lastAccount`. */
  datatype Record = Record(
    request: Request,
    lastAccount: Option<Digest>,
    creationDate: Timestamp,
    counter: nat,
    hashState: Digest)

  /** `str(x)` of an optional string: `None` prints as the word None. */
  function OptionText(x: Option<string>): (s: string) {
    match x
    case None => "None"
    case Some(s) => s
  }

  /** The text `calculate_request_hash` feeds to the hash: the four fields
      concatenated with no separator. */
  function RequestPreimage(lender: Option<string>, borrower: string, amount: int, date: Timestamp): (s: string) {
    OptionText(lender) + borrower + IntToString(amount) + NatToString(date)
  }

  function RequestHash(sha: Hasher, lender: Option<string>, borrower: string, amount: int, date: Timestamp): (h: Digest) {
    sha(RequestPreimage(lender, borrower, amount, date))
  }

  /** A request whose stored hash is the hash of its own fields. */
  function NewRequest(sha: Hasher, lender: Option<string>, borrower: string, amount: int, date: Timestamp): (r: Request)
    ensures WellHashed(sha, r)
    ensures r.lender == lender && r.borrower == borrower && r.amount == amount && r.requestDate == date
  {
    Request(lender, borrower, amount, date, RequestHash(sha, lender, borrower, amount, date))
  }

  predicate WellHashed(sha: Hasher, r: Request) {
    r.requestHash == RequestHash(sha, r.lender, r.borrower, r.amount, r.requestDate)
  }

  /** The rendering of a request inside a record's hash input (stands for
      pydantic's `str` of the request model, which lists every field). */
  function RenderRequest(r: Request): (s: string) {
    OptionText(r.lender) + r.borrower + IntToString(r.amount) + NatToString(r.requestDate) + r.requestHash
  }

  /** The text `calculate_hash_state` hashes: request, link, creation date
      and counter, concatenated. */
  function HashInput(request: Request, last: Option<Digest>, date: Timestamp, counter: nat): (s: string) {
    RenderRequest(request) + OptionText(last) + NatToString(date) + NatToString(counter)
  }

  /** `calculate_hash_state`. */
  function HashState(sha: Hasher, request: Request, last: Option<Digest>, date: Timestamp, counter: nat): (h: Digest) {
    sha(HashInput(request, last, date, counter))
  }

  /** The counter is the only part of the hash input the search changes, and
      different counters give different inputs: no text is hashed twice. */
  lemma HashInputInjective(request: Request, last: Option<Digest>, date: Timestamp, m: nat, n: nat)
    requires HashInput(request, last, date, m) == HashInput(request, last, date, n)
    ensures m == n
  {
    var prefix := RenderRequest(request) + OptionText(last) + NatToString(date);
    assert HashInput(request, last, date, m)[|prefix|..] == NatToString(m);
    assert HashInput(request, last, date, n)[|prefix|..] == NatToString(n);
    NatToStringInjective(m, n);
  }

  /** The hash a stored record recomputes to, using its stored counter. */
  function Recompute(sha: Hasher, r: Record): (h: Digest) {
    HashState(sha, r.request, r.lastAccount, r.creationDate, r.counter)
  }

  /** `miningWork`'s default difficulty; every record the ledger builds uses it. */
  const Difficulty: nat := 3

  function Zeros(d: nat): (z: string) {
    seq(d, _ => '0')
  }

  /** The test `miningWork` makes: `hashState[0:d] == '0' * d`, where the
      slice stops at the end of a short digest. */
  predicate HasZeroPrefix(h: Digest, d: nat) {
    (if |h| < d then h else h[..d]) == Zeros(d)
  }

  /** The first `d` characters of the digest exist and are all '0'. */
  predicate MeetsDifficulty(h: Digest, d: nat) {
    |h| >= d && forall i :: 0 <= i < d ==> h[i] == '0'
  }

  lemma ZeroPrefixIsDifficulty(h: Digest, d: nat)
    ensures HasZeroPrefix(h, d) <==> MeetsDifficulty(h, d)
  {
    if |h| < d {
      assert |Zeros(d)| != |h|;
    } else if MeetsDifficulty(h, d) {
      assert h[..d] == Zeros(d);
    }
  }

  /** Some counter seals this record content at difficulty `d`. */
  ghost predicate Mineable(sha: Hasher, d: nat, request: Request, last: Option<Digest>, date: Timestamp) {
    exists n: nat :: MeetsDifficulty(HashState(sha, request, last, date, n), d)
  }

  /** Every record content can be sealed: without this the source's search
      runs forever. */
  ghost predicate AlwaysMineable(sha: Hasher, d: nat) {
    forall request, last, date :: Mineable(sha, d, request, last, date)
  }

  /** No counter below `n` seals this record content. */
  ghost predicate NoNonceBelow(sha: Hasher, d: nat, request: Request, last: Option<Digest>, date: Timestamp, n: nat) {
    forall k: nat :: k < n ==> !MeetsDifficulty(HashState(sha, request, last, date, k), d)
  }

  /** `n` is the counter the search starting at 0 stops at. */
  ghost predicate IsLeastNonce(sha: Hasher, d: nat, request: Request, last: Option<Digest>, date: Timestamp, n: nat) {
    && MeetsDifficulty(HashState(sha, request, last, date, n), d)
    && NoNonceBelow(sha, d, request, last, date, n)
  }

  lemma {:induction false} LeastNonceExists(sha: Hasher, d: nat, request: Request, last: Option<Digest>, date: Timestamp, w: nat)
    requires MeetsDifficulty(HashState(sha, request, last, date, w), d)
    ensures exists n: nat :: IsLeastNonce(sha, d, request, last, date, n)
    decreases w
  {
    if forall k: nat :: k < w ==> !MeetsDifficulty(HashState(sha, request, last, date, k), d) {
      assert IsLeastNonce(sha, d, request, last, date, w);
    } else {
      var k: nat :| k < w && MeetsDifficulty(HashState(sha, request, last, date, k), d);
      LeastNonceExists(sha, d, request, last, date, k);
    }
  }

  lemma LeastNonceUnique(sha: Hasher, d: nat, request: Request, last: Option<Digest>, date: Timestamp, m: nat, n: nat)
    requires IsLeastNonce(sha, d, request, last, date, m)
    requires IsLeastNonce(sha, d, request, last, date, n)
    ensures m == n
  {
  }

  /** The smallest sealing counter. */
  ghost function LeastNonce(sha: Hasher, d: nat, request: Request, last: Option<Digest>, date: Timestamp): (n: nat)
    requires Mineable(sha, d, request, last, date)
    ensures IsLeastNonce(sha, d, request, last, date, n)
  {
    var w: nat :| MeetsDifficulty(HashState(sha, request, last, date, w), d);
    LeastNonceExists(sha, d, request, last, date, w);
    var n: nat :| IsLeastNonce(sha, d, request, last, date, n);
    n
  }

  /** A least counter is the one `LeastNonce` picks. */
  lemma IsTheLeastNonce(sha: Hasher, d: nat, request: Request, last: Option<Digest>, date: Timestamp, n: nat)
    requires IsLeastNonce(sha, d, request, last, date, n)
    ensures Mineable(sha, d, request, last, date)
    ensures n == LeastNonce(sha, d, request, last, date)
  {
    LeastNonceUnique(sha, d, request, last, date, n, LeastNonce(sha, d, request, last, date));
  }

  /** `Account.__init__` followed by `miningWork`: start at counter 0 and
      step by one until the digest has `d` leading zeros. */
  method MiningWork(sha: Hasher, d: nat, request: Request, last: Option<Digest>, date: Timestamp)
    returns (counter: nat, hashState: Digest)
    requires Mineable(sha, d, request, last, date)
    ensures counter == LeastNonce(sha, d, request, last, date)
    ensures hashState == HashState(sha, request, last, date, counter)
    ensures MeetsDifficulty(hashState, d)
  {
    ghost var w: nat :| MeetsDifficulty(HashState(sha, request, last, date, w), d);
    counter := 0;
    hashState := HashState(sha, request, last, date, counter);
    while !HasZeroPrefix(hashState, d)
      invariant counter <= w
      invariant hashState == HashState(sha, request, last, date, counter)
      invariant NoNonceBelow(sha, d, request, last, date, counter)
      decreases w - counter
    {
      ZeroPrefixIsDifficulty(hashState, d);
      SearchStep(sha, d, request, last, date, counter, w);
      counter := counter + 1;
      hashState := HashState(sha, request, last, date, counter);
    }
    ZeroPrefixIsDifficulty(hashState, d);
    IsTheLeastNonce(sha, d, request, last, date, counter);
  }

  /** One failed attempt of the search: the counter has not reached the
      witness `w`, and one more counter is ruled out. */
  lemma SearchStep(sha: Hasher, d: nat, request: Request, last: Option<Digest>, date: Timestamp, n: nat, w: nat)
    requires NoNonceBelow(sha, d, request, last, date, n)
    requires !MeetsDifficulty(HashState(sha, request, last, date, n), d)
    requires MeetsDifficulty(HashState(sha, request, last, date, w), d)
    ensures n < w
    ensures NoNonceBelow(sha, d, request, last, date, n + 1)
  {
  }

  /** A sealed record: the ledger's `AccountM` built with the link, the
      creation date and the hash the search found. */
  ghost function Seal(sha: Hasher, request: Request, last: Option<Digest>, date: Timestamp): (r: Record)
    requires AlwaysMineable(sha, Difficulty)
    ensures r.request == request && r.lastAccount == last && r.creationDate == date
    ensures Recompute(sha, r) == r.hashState
    ensures MeetsDifficulty(r.hashState, Difficulty)
    ensures forall k: nat :: k < r.counter ==> !MeetsDifficulty(HashState(sha, request, last, date, k), Difficulty)
  {
    assert Mineable(sha, Difficulty, request, last, date);
    var n := LeastNonce(sha, Difficulty, request, last, date);
    Record(request, last, date, n, HashState(sha, request, last, date, n))
  }

  /** The executable sealing step: runs the search and stores its counter. */
  method SealAccount(sha: Hasher, request: Request, last: Option<Digest>, date: Timestamp) returns (r: Record)
    requires AlwaysMineable(sha, Difficulty)
    ensures r == Seal(sha, request, last, date)
  {
    assert Mineable(sha, Difficulty, request, last, date);
    var counter, hashState := MiningWork(sha, Difficulty, request, last, date);
    r := Record(request, last, date, counter, hashState);
  }
}
