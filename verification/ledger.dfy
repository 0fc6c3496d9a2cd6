/** The in-memory ledger engine `MoneyLenderBlockChain`
    (money_lender_blockchain.py): an append-only chain of sealed records, a
    queue of pending requests, balances replayed from the chain, and the
    registry of lending groups. Every operation is a pure state transition
    on an immutable `Engine`. */
module Ledger {
  import opened Base
  import opened Sealing
  import opened Groups

  /** The amount each commit mints, and the cap on a single request. */
  const MaxAmountMinable: int := 100

  /** The participant who receives every minted amount. */
  const MiningOutputOwner: string := "Femi"

  /** The engine's state. `requestDate` and `creationDate` are the default
      dates of `LendingRequestM` and `AccountM`: Python evaluates them once,
      when the classes are defined, so every request and every record the
      engine builds carries them. */
  datatype Engine = Engine(
    chain: seq<Record>,
    pending: seq<Request>,
    groups: seq<Group>,
    requestDate: Timestamp,
    creationDate: Timestamp)

  /** The system request that mints `MaxAmountMinable` for the mining owner. */
  function MintRequest(sha: Hasher, date: Timestamp): (r: Request)
    ensures r.lender == None && r.borrower == MiningOutputOwner && r.amount == MaxAmountMinable
    ensures r.requestDate == date && WellHashed(sha, r)
  {
    NewRequest(sha, None, MiningOutputOwner, MaxAmountMinable, date)
  }

  // ---------------------------------------------------------------------
  // Construction and the chain tail
  // ---------------------------------------------------------------------

  /** `__init__` with `create_initial_account`: a chain holding only the
      genesis mint record, no pending requests and no groups. */
  ghost function Init(sha: Hasher, requestDate: Timestamp, creationDate: Timestamp): (e: Engine)
    requires AlwaysMineable(sha, Difficulty)
    ensures e.pending == [] && e.groups == []
    ensures |e.chain| == 1 && e.chain[0].lastAccount == None
    ensures e.chain[0].request.lender == None
    ensures e.chain[0].request.borrower == MiningOutputOwner && e.chain[0].request.amount == MaxAmountMinable
    ensures Recompute(sha, e.chain[0]) == e.chain[0].hashState
  {
    Engine([Seal(sha, MintRequest(sha, requestDate), None, creationDate)], [], [], requestDate, creationDate)
  }

  /** The executable constructor. */
  method NewEngine(sha: Hasher, requestDate: Timestamp, creationDate: Timestamp) returns (e: Engine)
    requires AlwaysMineable(sha, Difficulty)
    ensures e == Init(sha, requestDate, creationDate)
  {
    var genesis := SealAccount(sha, MintRequest(sha, requestDate), None, creationDate);
    e := Engine([genesis], [], [], requestDate, creationDate);
  }

  /** `return_last_account`. */
  function LastAccount(chain: seq<Record>): (r: Record)
    requires |chain| > 0
  {
    chain[|chain| - 1]
  }

  // ---------------------------------------------------------------------
  // Chain validity
  // ---------------------------------------------------------------------

  /** The three tests `is_the_blockchain_valid` makes of position `i`: the
      next record links to this one, this one recomputes to its stored hash
      (with its stored counter), and it is not dated after the last record. */
  predicate CheckedAt(sha: Hasher, chain: seq<Record>, i: int)
    requires 0 <= i < |chain| - 1
  {
    && Some(chain[i].hashState) == chain[i + 1].lastAccount
    && Recompute(sha, chain[i]) == chain[i].hashState
    && chain[i].creationDate <= LastAccount(chain).creationDate
  }

  /** Every position but the last passes the tests; the last record's own
      hash is never recomputed. */
  predicate ValidChain(sha: Hasher, chain: seq<Record>) {
    forall i :: 0 <= i < |chain| - 1 ==> CheckedAt(sha, chain, i)
  }

  /** `is_the_blockchain_valid`: walks `range(len(chain) - 1)` and stops at
      the first failed test. */
  method IsTheBlockchainValid(sha: Hasher, chain: seq<Record>) returns (valid: bool)
    ensures valid <==> ValidChain(sha, chain)
  {
    var n := |chain| - 1;
    var i := 0;
    while i < n
      invariant 0 <= i <= (if n < 0 then 0 else n)
      invariant forall j :: 0 <= j < i ==> CheckedAt(sha, chain, j)
    {
      if Some(chain[i].hashState) != chain[i + 1].lastAccount {
        assert !CheckedAt(sha, chain, i);
        return false;
      }
      if chain[i].hashState != Recompute(sha, chain[i]) {
        assert !CheckedAt(sha, chain, i);
        return false;
      }
      if chain[i].creationDate > LastAccount(chain).creationDate {
        assert !CheckedAt(sha, chain, i);
        return false;
      }
      i := i + 1;
    }
    return true;
  }

  // ---------------------------------------------------------------------
  // Balances
  // ---------------------------------------------------------------------

  /** What one request does to `name`'s balance: the lender is debited when
      the lender name matches exactly (a mint's missing lender matches no
      one), the borrower credited when the names match ignoring case. */
  function Delta(r: Request, name: string): (d: int) {
    (if r.lender == Some(name) then -r.amount else 0)
    + (if Lower(r.borrower) == Lower(name) then r.amount else 0)
  }

  /** The net effect of a sequence of requests, replayed in order. */
  function NetFlow(reqs: seq<Request>, name: string): (n: int)
    decreases |reqs|
  {
    if reqs == [] then 0 else NetFlow(reqs[..|reqs| - 1], name) + Delta(reqs[|reqs| - 1], name)
  }

  /** The requests of a chain, in chain order. */
  function Requests(chain: seq<Record>): (rs: seq<Request>)
    ensures |rs| == |chain|
    ensures forall i :: 0 <= i < |chain| ==> rs[i] == chain[i].request
  {
    seq(|chain|, i requires 0 <= i < |chain| => chain[i].request)
  }

  /** A participant's balance: the replay of every committed request. */
  function Balance(chain: seq<Record>, name: string): (b: int) {
    NetFlow(Requests(chain), name)
  }

  /** `calculate_lender_balance`: one pass over the chain. */
  method CalculateLenderBalance(chain: seq<Record>, lender: string) returns (balance: int)
    ensures balance == Balance(chain, lender)
  {
    balance := 0;
    var i := 0;
    while i < |chain|
      invariant 0 <= i <= |chain|
      invariant balance == NetFlow(Requests(chain)[..i], lender)
    {
      var request := chain[i].request;
      if request.lender == Some(lender) {
        balance := balance - request.amount;
      }
      if Lower(request.borrower) == Lower(lender) {
        balance := balance + request.amount;
      }
      assert Requests(chain)[..i + 1][..i] == Requests(chain)[..i];
      i := i + 1;
    }
    assert Requests(chain)[..i] == Requests(chain);
  }

  // ---------------------------------------------------------------------
  // Lending requests
  // ---------------------------------------------------------------------

  /** The rejections of `create_new_lending_request`. */
  datatype RequestError =
    | SameParty
    | ExceedsMintLimit
    | InsufficientBalance
    | BlankIdentifier
    | NonPositiveAmount
    | DuplicateRequest

  /** The order in which the checks are made. */
  function Rank(err: RequestError): (n: nat) {
    match err
    case SameParty => 0
    case ExceedsMintLimit => 1
    case InsufficientBalance => 2
    case BlankIdentifier => 3
    case NonPositiveAmount => 4
    case DuplicateRequest => 5
  }

  /** The duplicate test `create_new_lending_request` makes: some pending
      request stores the hash of the new request's fields. */
  predicate DuplicateByHash(sha: Hasher, pending: seq<Request>, lender: Option<string>, borrower: string, amount: int, date: Timestamp) {
    exists i :: 0 <= i < |pending| && pending[i].requestHash == RequestHash(sha, lender, borrower, amount, date)
  }

  /** The corrected duplicate test: a pending request with the same lender,
      borrower, amount and date. */
  predicate DuplicatePending(pending: seq<Request>, lender: Option<string>, borrower: string, amount: int, date: Timestamp) {
    exists i :: 0 <= i < |pending| &&
      pending[i].lender == lender && pending[i].borrower == borrower &&
      pending[i].amount == amount && pending[i].requestDate == date
  }

  /** Which duplicate test an engine runs: the source's comparison of request
      hashes, or the corrected comparison of request fields. */
  datatype DuplicateTest = ByHash | ByContent

  predicate IsDuplicate(sha: Hasher, test: DuplicateTest, pending: seq<Request>, lender: Option<string>, borrower: string, amount: int, date: Timestamp) {
    match test
    case ByHash => DuplicateByHash(sha, pending, lender, borrower, amount, date)
    case ByContent => DuplicatePending(pending, lender, borrower, amount, date)
  }

  /** The condition under which each check rejects, independent of order.
      The stored amount is `int(amount)`, the coercion of the request
      model's integer field. */
  predicate Fails(sha: Hasher, test: DuplicateTest, e: Engine, lender: string, borrower: string, amount: real, err: RequestError) {
    match err
    case SameParty => Lower(lender) == Lower(borrower)
    case ExceedsMintLimit => amount > MaxAmountMinable as real
    case InsufficientBalance => amount > Balance(e.chain, lender) as real
    case BlankIdentifier => lender == "" || borrower == ""
    case NonPositiveAmount => amount <= 0.0
    case DuplicateRequest => IsDuplicate(sha, test, e.pending, Some(lender), borrower, Truncate(amount), e.requestDate)
  }

  datatype Submitted = Submitted(engine: Engine, request: Request)

  /** `create_new_lending_request`: reject with the first failing check, or
      queue the new request at the end of the pending list. A rejection
      leaves the engine as it was. With `ByHash` this is the source's
      behaviour; `ByContent` is the corrected one. */
  function SubmitRequest(sha: Hasher, test: DuplicateTest, e: Engine, lender: string, borrower: string, amount: real): (r: Result<Submitted, RequestError>)
    ensures r.Ok? <==> forall err :: !Fails(sha, test, e, lender, borrower, amount, err)
    ensures r.Err? ==> Fails(sha, test, e, lender, borrower, amount, r.error)
    ensures r.Err? ==> forall err :: Rank(err) < Rank(r.error) ==> !Fails(sha, test, e, lender, borrower, amount, err)
    ensures r.Ok? ==> r.value.engine == e.(pending := e.pending + [r.value.request])
    ensures r.Ok? ==> r.value.request.lender == Some(lender) && r.value.request.borrower == borrower
    ensures r.Ok? ==> r.value.request.amount == Truncate(amount) && r.value.request.requestDate == e.requestDate
    ensures r.Ok? ==> WellHashed(sha, r.value.request)
  {
    if Lower(lender) == Lower(borrower) then
      assert Fails(sha, test, e, lender, borrower, amount, SameParty);
      Err(SameParty)
    else if amount > MaxAmountMinable as real then
      assert Fails(sha, test, e, lender, borrower, amount, ExceedsMintLimit);
      Err(ExceedsMintLimit)
    else if amount > Balance(e.chain, lender) as real then
      assert Fails(sha, test, e, lender, borrower, amount, InsufficientBalance);
      Err(InsufficientBalance)
    else if lender == "" || borrower == "" then
      assert Fails(sha, test, e, lender, borrower, amount, BlankIdentifier);
      Err(BlankIdentifier)
    else if amount <= 0.0 then
      assert Fails(sha, test, e, lender, borrower, amount, NonPositiveAmount);
      Err(NonPositiveAmount)
    else
      var request := NewRequest(sha, Some(lender), borrower, Truncate(amount), e.requestDate);
      if IsDuplicate(sha, test, e.pending, request.lender, request.borrower, request.amount, request.requestDate) then
        assert Fails(sha, test, e, lender, borrower, amount, DuplicateRequest);
        Err(DuplicateRequest)
      else
        Ok(Submitted(e.(pending := e.pending + [request]), request))
  }

  /** The engine after a submission whose result the caller ignores: the
      queue grows by the new request when it is accepted and stays as it
      was when it is refused. */
  function AfterSubmit(sha: Hasher, test: DuplicateTest, e: Engine, lender: string, borrower: string, amount: real): (e': Engine)
    ensures SubmitRequest(sha, test, e, lender, borrower, amount).Err? ==> e' == e
    ensures SubmitRequest(sha, test, e, lender, borrower, amount).Ok? ==>
      e' == e.(pending := e.pending + [NewRequest(sha, Some(lender), borrower, Truncate(amount), e.requestDate)])
  {
    match SubmitRequest(sha, test, e, lender, borrower, amount)
    case Ok(s) => s.engine
    case Err(_) => e
  }

  // ---------------------------------------------------------------------
  // Commit
  // ---------------------------------------------------------------------

  /** `cur` is sealed right after `prev`: it links to `prev`'s hash, carries
      the given creation date and recomputes to its stored hash. */
  predicate SealedAfter(sha: Hasher, prev: Record, cur: Record, date: Timestamp) {
    && cur.lastAccount == Some(prev.hashState)
    && cur.creationDate == date
    && Recompute(sha, cur) == cur.hashState
  }

  /** Seals `reqs` one after another onto `chain`, each linking to the hash
      of the record before it. */
  ghost function SealAll(sha: Hasher, chain: seq<Record>, reqs: seq<Request>, date: Timestamp): (r: seq<Record>)
    requires |chain| > 0 && AlwaysMineable(sha, Difficulty)
    ensures |r| == |chain| + |reqs|
    ensures r[..|chain|] == chain
    decreases |reqs|
  {
    if reqs == [] then chain
    else
      var next := Seal(sha, reqs[0], Some(LastAccount(chain).hashState), date);
      var r := SealAll(sha, chain + [next], reqs[1..], date);
      assert r[..|chain| + 1][..|chain|] == r[..|chain|];
      r
  }

  /** From position `start` on, `r` holds `reqs` in order, each record
      sealed after its predecessor. */
  predicate AppendedAfter(sha: Hasher, r: seq<Record>, start: nat, reqs: seq<Request>, date: Timestamp) {
    && 0 < start
    && |r| == start + |reqs|
    && forall i :: start <= i < |r| ==> r[i].request == reqs[i - start] && SealedAfter(sha, r[i - 1], r[i], date)
  }

  /** Every record `SealAll` appends holds the next request and is sealed
      after its predecessor. */
  lemma {:induction false} SealAllLinks(sha: Hasher, chain: seq<Record>, reqs: seq<Request>, date: Timestamp)
    requires |chain| > 0 && AlwaysMineable(sha, Difficulty)
    ensures AppendedAfter(sha, SealAll(sha, chain, reqs, date), |chain|, reqs, date)
    decreases |reqs|
  {
    if reqs != [] {
      var next := Seal(sha, reqs[0], Some(LastAccount(chain).hashState), date);
      var chain' := chain + [next];
      var r := SealAll(sha, chain', reqs[1..], date);
      SealAllLinks(sha, chain', reqs[1..], date);
      assert r == SealAll(sha, chain, reqs, date);
      assert r[..|chain'|] == chain';
      forall i | |chain| <= i < |r|
        ensures r[i].request == reqs[i - |chain|] && SealedAfter(sha, r[i - 1], r[i], date)
      {
        if i == |chain| {
          assert r[i] == r[..|chain'|][i] == next;
          assert r[i - 1] == r[..|chain'|][i - 1] == LastAccount(chain);
        } else {
          assert r[i].request == reqs[1..][i - |chain'|];
        }
      }
    }
  }

  /** `process_pending_requests`: seal every pending request in order,
      empty the queue, then seal one mint record. */
  ghost function Commit(sha: Hasher, e: Engine): (e': Engine)
    requires |e.chain| > 0 && AlwaysMineable(sha, Difficulty)
    ensures |e'.chain| == |e.chain| + |e.pending| + 1
    ensures e'.chain[..|e.chain|] == e.chain
    ensures LastAccount(e'.chain).request == MintRequest(sha, e.requestDate)
    ensures e'.pending == []
    ensures e'.groups == e.groups && e'.requestDate == e.requestDate && e'.creationDate == e.creationDate
  {
    var sealed := SealAll(sha, e.chain, e.pending, e.creationDate);
    var mint := Seal(sha, MintRequest(sha, e.requestDate), Some(LastAccount(sealed).hashState), e.creationDate);
    assert (sealed + [mint])[..|e.chain|] == sealed[..|e.chain|];
    e.(chain := sealed + [mint], pending := [])
  }

  /** A commit appends exactly the pending requests, in queue order, and then
      the mint request, each sealed after the record before it. */
  lemma CommitLinks(sha: Hasher, e: Engine)
    requires |e.chain| > 0 && AlwaysMineable(sha, Difficulty)
    ensures AppendedAfter(sha, Commit(sha, e).chain, |e.chain|, e.pending + [MintRequest(sha, e.requestDate)], e.creationDate)
  {
    var sealed := SealAll(sha, e.chain, e.pending, e.creationDate);
    SealAllLinks(sha, e.chain, e.pending, e.creationDate);
    var c := Commit(sha, e).chain;
    var reqs := e.pending + [MintRequest(sha, e.requestDate)];
    assert c == sealed + [c[|c| - 1]];
    forall i | |e.chain| <= i < |c|
      ensures c[i].request == reqs[i - |e.chain|] && SealedAfter(sha, c[i - 1], c[i], e.creationDate)
    {
      if i < |sealed| {
        assert c[i] == sealed[i] && c[i - 1] == sealed[i - 1];
      }
    }
  }

  /** The executable commit: one sealing search per pending request, then
      one for the mint. */
  method ProcessPendingRequests(sha: Hasher, e: Engine) returns (e': Engine)
    requires |e.chain| > 0 && AlwaysMineable(sha, Difficulty)
    ensures e' == Commit(sha, e)
  {
    var chain := e.chain;
    var i := 0;
    while i < |e.pending|
      invariant 0 <= i <= |e.pending|
      invariant |chain| > 0
      invariant SealAll(sha, chain, e.pending[i..], e.creationDate) == SealAll(sha, e.chain, e.pending, e.creationDate)
    {
      var account := SealAccount(sha, e.pending[i], Some(LastAccount(chain).hashState), e.creationDate);
      assert e.pending[i..][1..] == e.pending[i + 1..];
      chain := chain + [account];
      i := i + 1;
    }
    var mint := SealAccount(sha, MintRequest(sha, e.requestDate), Some(LastAccount(chain).hashState), e.creationDate);
    e' := e.(chain := chain + [mint], pending := []);
  }

  // ---------------------------------------------------------------------
  // Lending groups
  // ---------------------------------------------------------------------

  /** `create_lender_group`: refuse a name some group already has, compared
      exactly (case matters here); otherwise register an empty group. */
  function CreateLenderGroup(e: Engine, name: string, totalAmount: real, splitRate: real): (r: (Engine, bool))
    ensures r.1 <==> forall g :: g in e.groups ==> g.name != name
    ensures !r.1 ==> r.0 == e
    ensures r.1 ==> r.0 == e.(groups := e.groups + [Group(name, totalAmount, splitRate, [])])
  {
    if exists i :: 0 <= i < |e.groups| && e.groups[i].name == name then (e, false)
    else (e.(groups := e.groups + [Group(name, totalAmount, splitRate, [])]), true)
  }

  /** What each lender of a group pledges: `totalAmount * splitRate`. */
  function PledgeAmount(g: Group): (a: real) {
    g.totalAmount * g.splitRate
  }

  /** The group matches the requested name ignoring case and the lender's
      balance covers its pledge. */
  predicate Eligible(g: Group, groupName: string, balance: int) {
    Lower(g.name) == Lower(groupName) && balance as real >= PledgeAmount(g)
  }

  /** The loop of `add_lender_to_group`: the first group from `from` on that
      matches the name and whose pledge the balance covers; a matching group
      the balance does not cover is passed over. */
  function FirstEligible(groups: seq<Group>, groupName: string, balance: int, from: nat): (r: Option<nat>)
    requires from <= |groups|
    ensures r.None? <==> forall j :: from <= j < |groups| ==> !Eligible(groups[j], groupName, balance)
    ensures r.Some? ==> from <= r.value < |groups| && Eligible(groups[r.value], groupName, balance)
    ensures r.Some? ==> forall j :: from <= j < r.value ==> !Eligible(groups[j], groupName, balance)
    decreases |groups| - from
  {
    if from == |groups| then None
    else if Eligible(groups[from], groupName, balance) then Some(from)
    else FirstEligible(groups, groupName, balance, from + 1)
  }

  /** A group that is eligible while no earlier one is, is the one
      `FirstEligible` finds. */
  lemma FirstEligibleLeast(groups: seq<Group>, groupName: string, balance: int)
    ensures forall i :: 0 <= i < |groups| && Eligible(groups[i], groupName, balance)
                        && (forall j :: 0 <= j < i ==> !Eligible(groups[j], groupName, balance))
                        ==> FirstEligible(groups, groupName, balance, 0) == Some(i)
  {
    var k := FirstEligible(groups, groupName, balance, 0);
    forall i | 0 <= i < |groups| && Eligible(groups[i], groupName, balance)
               && (forall j :: 0 <= j < i ==> !Eligible(groups[j], groupName, balance))
      ensures k == Some(i)
    {
      assert k.Some?;
    }
  }

  /** `add_lender_to_group`: join the first eligible group unless the lender
      is already in it; record the pledge, queue a request from the lender to
      the group for the pledge (its result ignored), and hand every pledge
      the credential `key` once the pledges add up to the group's total.
      The join is refused, leaving the engine as it was, exactly when no
      group matches the name (ignoring case) with a pledge the lender's
      balance covers, or when the lender is already in the first such group. */
  function AddLenderToGroup(sha: Hasher, test: DuplicateTest, e: Engine, lenderName: string, groupName: string, key: string): (r: (Engine, bool))
    ensures var balance := Balance(e.chain, lenderName);
            r.1 <==> exists i :: 0 <= i < |e.groups| && Eligible(e.groups[i], groupName, balance)
                                 && (forall j :: 0 <= j < i ==> !Eligible(e.groups[j], groupName, balance))
                                 && !HasLender(e.groups[i].lenders, lenderName)
    ensures !r.1 ==> r.0 == e
  {
    FirstEligibleLeast(e.groups, groupName, Balance(e.chain, lenderName));
    match FirstEligible(e.groups, groupName, Balance(e.chain, lenderName), 0)
    case None => (e, false)
    case Some(i) =>
      var g := e.groups[i];
      if HasLender(g.lenders, lenderName) then (e, false)
      else
        var lenders := g.lenders + [Pledge(lenderName, PledgeAmount(g), None)];
        var afterRequest := AfterSubmit(sha, test, e, lenderName, g.name, PledgeAmount(g));
        var staked := if TotalLended(lenders) == g.totalAmount then ProcessLenderStake(lenders, key) else lenders;
        (afterRequest.(groups := e.groups[i := g.(lenders := staked)]), true)
  }
}
