/** Properties of the ledger engine that relate several operations: how a
    commit moves balances, the engine invariant every operation keeps (and
    which makes the validity check succeed), the behaviour of group joins,
    and concrete runs that show the source's quirks. */
module LedgerProperties {
  import opened Base
  import opened Sealing
  import opened Groups
  import opened Ledger

  // ---------------------------------------------------------------------
  // Balances across a commit
  // ---------------------------------------------------------------------

  /** Replaying two request lists one after the other adds their effects. */
  lemma {:induction false} NetFlowConcat(a: seq<Request>, b: seq<Request>, name: string)
    ensures NetFlow(a + b, name) == NetFlow(a, name) + NetFlow(b, name)
    decreases |b|
  {
    if b == [] {
      assert a + b == a;
    } else {
      var b' := b[..|b| - 1];
      assert (a + b)[..|a + b| - 1] == a + b';
      NetFlowConcat(a, b', name);
    }
  }

  /** The requests of a committed chain: the old ones, the pending ones in
      queue order, then the mint. */
  lemma CommitRequests(sha: Hasher, e: Engine)
    requires |e.chain| > 0 && AlwaysMineable(sha, Difficulty)
    ensures Requests(Commit(sha, e).chain) == Requests(e.chain) + e.pending + [MintRequest(sha, e.requestDate)]
  {
    var c := Commit(sha, e).chain;
    CommitLinks(sha, e);
    assert c[..|e.chain|] == e.chain;
    var reqs := e.pending + [MintRequest(sha, e.requestDate)];
    forall i | 0 <= i < |c|
      ensures Requests(c)[i] == (Requests(e.chain) + reqs)[i]
    {
      if i < |e.chain| {
        assert c[i] == c[..|e.chain|][i];
      }
    }
  }

  /** Committing one more record moves balances by its request alone: the
      lender named exactly is debited, a borrower matching ignoring case is
      credited. */
  lemma BalanceAppend(chain: seq<Record>, rec: Record, name: string)
    ensures Balance(chain + [rec], name)
         == Balance(chain, name)
            - (if rec.request.lender == Some(name) then rec.request.amount else 0)
            + (if Lower(rec.request.borrower) == Lower(name) then rec.request.amount else 0)
  {
    assert Requests(chain + [rec])[..|chain|] == Requests(chain);
  }

  /** A commit changes each balance by the net of the pending requests plus,
      for the mining owner (matched ignoring case), the minted amount. The
      pending requests count only once they are committed. */
  lemma CommitBalance(sha: Hasher, e: Engine, name: string)
    requires |e.chain| > 0 && AlwaysMineable(sha, Difficulty)
    ensures Balance(Commit(sha, e).chain, name)
         == Balance(e.chain, name) + NetFlow(e.pending, name)
            + (if Lower(MiningOutputOwner) == Lower(name) then MaxAmountMinable else 0)
  {
    var mint := MintRequest(sha, e.requestDate);
    CommitRequests(sha, e);
    NetFlowConcat(Requests(e.chain) + e.pending, [mint], name);
    NetFlowConcat(Requests(e.chain), e.pending, name);
    assert NetFlow([mint], name) == Delta(mint, name) by {
      assert [mint][..0] == [];
    }
  }

  // ---------------------------------------------------------------------
  // The engine invariant
  // ---------------------------------------------------------------------

  /** No two pending requests have the same lender, borrower, amount and date. */
  predicate DistinctPending(pending: seq<Request>) {
    forall i, j :: 0 <= i < j < |pending| ==>
      !(pending[i].lender == pending[j].lender && pending[i].borrower == pending[j].borrower &&
        pending[i].amount == pending[j].amount && pending[i].requestDate == pending[j].requestDate)
  }

  /** What every engine built by the operations satisfies: a genesis record
      without a link, every later record sealed after its predecessor, every
      record recomputing to its hash and dated with the engine's creation
      date, pending requests carrying their own hash and without duplicates,
      group names distinct, and no
      lender twice in a group. */
  ghost predicate Inv(sha: Hasher, e: Engine) {
    && |e.chain| > 0
    && e.chain[0].lastAccount == None
    && Recompute(sha, e.chain[0]) == e.chain[0].hashState
    && e.chain[0].creationDate == e.creationDate
    && (forall i :: 0 < i < |e.chain| ==> SealedAfter(sha, e.chain[i - 1], e.chain[i], e.creationDate))
    && (forall i :: 0 <= i < |e.pending| ==> WellHashed(sha, e.pending[i]))
    && DistinctPending(e.pending)
    && GroupsDistinct(e.groups)
  }

  /** Group names distinct as typed, and no lender twice in a group. */
  predicate GroupsDistinct(groups: seq<Group>) {
    && (forall i, j :: 0 <= i < j < |groups| ==> groups[i].name != groups[j].name)
    && (forall i :: 0 <= i < |groups| ==> DistinctLenders(groups[i].lenders))
  }

  /** Replacing one group's lenders by a list without repeated lenders keeps
      the groups distinct. */
  lemma ReplaceLendersKeepsDistinct(groups: seq<Group>, i: nat, lenders: seq<Pledge>)
    requires i < |groups| && GroupsDistinct(groups) && DistinctLenders(lenders)
    ensures GroupsDistinct(groups[i := groups[i].(lenders := lenders)])
  {
  }

  /** The invariant makes `is_the_blockchain_valid` succeed; in particular
      its date test never fails, because every record carries one date. */
  lemma InvImpliesValid(sha: Hasher, e: Engine)
    requires Inv(sha, e)
    ensures ValidChain(sha, e.chain)
  {
    var c := e.chain;
    forall i | 0 <= i < |c| - 1
      ensures CheckedAt(sha, c, i)
    {
      assert SealedAfter(sha, c[i], c[i + 1], e.creationDate);
      if i > 0 {
        assert SealedAfter(sha, c[i - 1], c[i], e.creationDate);
      }
      assert SealedAfter(sha, c[|c| - 2], c[|c| - 1], e.creationDate);
    }
  }

  lemma InitInv(sha: Hasher, requestDate: Timestamp, creationDate: Timestamp)
    requires AlwaysMineable(sha, Difficulty)
    ensures Inv(sha, Init(sha, requestDate, creationDate))
  {
  }

  lemma CommitInv(sha: Hasher, e: Engine)
    requires Inv(sha, e) && AlwaysMineable(sha, Difficulty)
    ensures Inv(sha, Commit(sha, e))
  {
    var c := Commit(sha, e).chain;
    CommitLinks(sha, e);
    assert c[..|e.chain|] == e.chain;
    assert c[0] == e.chain[0];
    forall i | 0 < i < |c|
      ensures SealedAfter(sha, c[i - 1], c[i], e.creationDate)
    {
      if i < |e.chain| {
        assert c[i] == e.chain[i] && c[i - 1] == e.chain[i - 1];
      }
    }
  }

  /** A request whose hash no pending request stores has no field-for-field
      twin among the pending requests, as long as they carry their own hashes. */
  lemma HashDistinctIsContentDistinct(sha: Hasher, pending: seq<Request>, lender: Option<string>, borrower: string, amount: int, date: Timestamp)
    requires forall i :: 0 <= i < |pending| ==> WellHashed(sha, pending[i])
    requires !DuplicateByHash(sha, pending, lender, borrower, amount, date)
    ensures !DuplicatePending(pending, lender, borrower, amount, date)
  {
    forall i | 0 <= i < |pending|
      ensures !(pending[i].lender == lender && pending[i].borrower == borrower &&
                pending[i].amount == amount && pending[i].requestDate == date)
    {
      assert WellHashed(sha, pending[i]);
    }
  }

  /** Submitting keeps the invariant under either duplicate test: the hash
      test refuses every request the content test refuses. */
  lemma SubmitInv(sha: Hasher, test: DuplicateTest, e: Engine, lender: string, borrower: string, amount: real)
    requires Inv(sha, e)
    ensures Inv(sha, AfterSubmit(sha, test, e, lender, borrower, amount))
  {
    var r := SubmitRequest(sha, test, e, lender, borrower, amount);
    if r.Ok? {
      assert !Fails(sha, test, e, lender, borrower, amount, DuplicateRequest);
      if test == ByHash {
        HashDistinctIsContentDistinct(sha, e.pending, Some(lender), borrower, Truncate(amount), e.requestDate);
      }
    }
  }

  lemma CreateGroupInv(sha: Hasher, e: Engine, name: string, totalAmount: real, splitRate: real)
    requires Inv(sha, e)
    ensures Inv(sha, CreateLenderGroup(e, name, totalAmount, splitRate).0)
  {
    var r := CreateLenderGroup(e, name, totalAmount, splitRate);
    if r.1 {
      var gs := r.0.groups;
      forall i, j | 0 <= i < j < |gs|
        ensures gs[i].name != gs[j].name
      {
        if j == |e.groups| {
          assert e.groups[i] in e.groups;
        }
      }
    }
  }

  lemma AddLenderInv(sha: Hasher, test: DuplicateTest, e: Engine, lenderName: string, groupName: string, key: string)
    requires Inv(sha, e)
    ensures Inv(sha, AddLenderToGroup(sha, test, e, lenderName, groupName, key).0)
  {
    var k := FirstEligible(e.groups, groupName, Balance(e.chain, lenderName), 0);
    if k.Some? && !HasLender(e.groups[k.value].lenders, lenderName) {
      var i := k.value;
      var g := e.groups[i];
      var lenders := g.lenders + [Pledge(lenderName, PledgeAmount(g), None)];
      var afterRequest := AfterSubmit(sha, test, e, lenderName, g.name, PledgeAmount(g));
      var staked := if TotalLended(lenders) == g.totalAmount then ProcessLenderStake(lenders, key) else lenders;
      assert AddLenderToGroup(sha, test, e, lenderName, groupName, key).0
          == afterRequest.(groups := e.groups[i := g.(lenders := staked)]);
      SubmitInv(sha, test, e, lenderName, g.name, PledgeAmount(g));
      assert afterRequest.groups == e.groups;
      AddNewLenderKeepsDistinct(g.lenders, Pledge(lenderName, PledgeAmount(g), None));
      StakeKeepsDistinct(lenders, key);
      ReplaceLendersKeepsDistinct(e.groups, i, staked);
    }
  }

  /** The operations a caller can apply to the engine. */
  datatype Op =
    | Submit(lender: string, borrower: string, amount: real)
    | ProcessPending
    | CreateGroup(name: string, totalAmount: real, splitRate: real)
    | AddLender(lenderName: string, groupName: string, key: string)

  /** One operation on an engine that runs duplicate test `test`. */
  ghost function Step(sha: Hasher, test: DuplicateTest, e: Engine, op: Op): (e': Engine)
    requires |e.chain| > 0 && AlwaysMineable(sha, Difficulty)
    ensures |e'.chain| > 0
  {
    match op
    case Submit(l, b, a) => AfterSubmit(sha, test, e, l, b, a)
    case ProcessPending => Commit(sha, e)
    case CreateGroup(n, t, s) => CreateLenderGroup(e, n, t, s).0
    case AddLender(l, g, k) => AddLenderToGroup(sha, test, e, l, g, k).0
  }

  ghost function Run(sha: Hasher, test: DuplicateTest, e: Engine, ops: seq<Op>): (e': Engine)
    requires |e.chain| > 0 && AlwaysMineable(sha, Difficulty)
    ensures |e'.chain| > 0
    decreases |ops|
  {
    if ops == [] then e else Run(sha, test, Step(sha, test, e, ops[0]), ops[1..])
  }

  /** Every operation keeps the invariant. */
  lemma StepInv(sha: Hasher, test: DuplicateTest, e: Engine, op: Op)
    requires Inv(sha, e) && AlwaysMineable(sha, Difficulty)
    ensures Inv(sha, Step(sha, test, e, op))
  {
    match op
    case Submit(l, b, a) => SubmitInv(sha, test, e, l, b, a);
    case ProcessPending => CommitInv(sha, e);
    case CreateGroup(n, t, s) => CreateGroupInv(sha, e, n, t, s);
    case AddLender(l, g, k) => AddLenderInv(sha, test, e, l, g, k);
  }

  /** Whatever operations follow construction, the chain passes
      `is_the_blockchain_valid`. */
  lemma {:induction false} RunStaysValid(sha: Hasher, test: DuplicateTest, e: Engine, ops: seq<Op>)
    requires Inv(sha, e) && AlwaysMineable(sha, Difficulty)
    ensures Inv(sha, Run(sha, test, e, ops))
    ensures ValidChain(sha, Run(sha, test, e, ops).chain)
    decreases |ops|
  {
    if ops == [] {
      InvImpliesValid(sha, e);
    } else {
      StepInv(sha, test, e, ops[0]);
      RunStaysValid(sha, test, Step(sha, test, e, ops[0]), ops[1..]);
    }
  }

  lemma ValidAfterAnyRun(sha: Hasher, test: DuplicateTest, requestDate: Timestamp, creationDate: Timestamp, ops: seq<Op>)
    requires AlwaysMineable(sha, Difficulty)
    ensures ValidChain(sha, Run(sha, test, Init(sha, requestDate, creationDate), ops).chain)
  {
    InitInv(sha, requestDate, creationDate);
    RunStaysValid(sha, test, Init(sha, requestDate, creationDate), ops);
  }

  /** The last record's own hash is never recomputed: replacing its request,
      counter and hash goes unnoticed as long as its link and date stay. */
  lemma LastRecordNotRechecked(sha: Hasher, chain: seq<Record>, r: Record)
    requires |chain| > 0 && ValidChain(sha, chain)
    requires r.lastAccount == LastAccount(chain).lastAccount
    requires r.creationDate == LastAccount(chain).creationDate
    ensures ValidChain(sha, chain[|chain| - 1 := r])
  {
    var c := chain[|chain| - 1 := r];
    forall i | 0 <= i < |c| - 1
      ensures CheckedAt(sha, c, i)
    {
      assert CheckedAt(sha, chain, i);
    }
  }

  // ---------------------------------------------------------------------
  // Lending groups
  // ---------------------------------------------------------------------

  /** Group names are unique only as typed: a name differing from an
      existing one only in case is accepted. */
  lemma GroupNamesCaseSensitive(e: Engine)
    requires e.groups == []
    ensures var (e1, ok1) := CreateLenderGroup(e, "Pool", 100.0, 0.5);
            var (e2, ok2) := CreateLenderGroup(e1, "pool", 100.0, 0.5);
            ok1 && ok2 && |e2.groups| == 2 && Lower(e2.groups[0].name) == Lower(e2.groups[1].name)
  {
    assert Lower("Pool") == "pool";
    assert Lower("pool") == "pool";
  }

  /** No group whose name matches ignoring case: refused. */
  lemma AddLenderNoSuchGroup(sha: Hasher, test: DuplicateTest, e: Engine, lenderName: string, groupName: string, key: string)
    requires forall g :: g in e.groups ==> Lower(g.name) != Lower(groupName)
    ensures AddLenderToGroup(sha, test, e, lenderName, groupName, key) == (e, false)
  {
  }

  /** A successful join into group `i` (the first eligible one): the chain
      and every other group are untouched, the group gains exactly one pledge
      of `totalAmount * splitRate` under the lender's name, its pledged total
      rises by that amount, every pledge holds the credential once the total
      equals the target and none is handed out otherwise, and the pending
      queue is what submitting the pledge as a request leaves, whether that
      request was accepted or not. */
  lemma AddLenderSuccess(sha: Hasher, test: DuplicateTest, e: Engine, lenderName: string, groupName: string, key: string, i: nat)
    requires i < |e.groups|
    requires Eligible(e.groups[i], groupName, Balance(e.chain, lenderName))
    requires forall j :: 0 <= j < i ==> !Eligible(e.groups[j], groupName, Balance(e.chain, lenderName))
    requires !HasLender(e.groups[i].lenders, lenderName)
    ensures var (e', ok) := AddLenderToGroup(sha, test, e, lenderName, groupName, key);
            var g := e.groups[i];
            var g' := e'.groups[i];
            && ok
            && e'.chain == e.chain
            && |e'.groups| == |e.groups|
            && (forall j :: 0 <= j < |e.groups| && j != i ==> e'.groups[j] == e.groups[j])
            && g'.name == g.name && g'.totalAmount == g.totalAmount && g'.splitRate == g.splitRate
            && |g'.lenders| == |g.lenders| + 1
            && (forall j :: 0 <= j < |g.lenders| ==>
                  g'.lenders[j].name == g.lenders[j].name && g'.lenders[j].amount == g.lenders[j].amount)
            && g'.lenders[|g.lenders|].name == lenderName
            && g'.lenders[|g.lenders|].amount == PledgeAmount(g)
            && TotalLended(g'.lenders) == TotalLended(g.lenders) + PledgeAmount(g)
            && (TotalLended(g'.lenders) == g.totalAmount ==>
                  forall j :: 0 <= j < |g'.lenders| ==> g'.lenders[j].participationKey == Some(key))
            && (TotalLended(g'.lenders) != g.totalAmount ==>
                  g'.lenders == g.lenders + [Pledge(lenderName, PledgeAmount(g), None)])
            && e'.pending == AfterSubmit(sha, test, e, lenderName, g.name, PledgeAmount(g)).pending
  {
    var balance := Balance(e.chain, lenderName);
    var k := FirstEligible(e.groups, groupName, balance, 0);
    assert k == Some(i);
    var g := e.groups[i];
    var lenders := g.lenders + [Pledge(lenderName, PledgeAmount(g), None)];
    TotalLendedAppend(g.lenders, Pledge(lenderName, PledgeAmount(g), None));
    StakeKeepsTotal(lenders, key);
  }

  /** Nothing closes a funded group: another eligible lender still joins,
      and the pledged total then exceeds the target. */
  lemma FundedGroupStillAcceptsLenders(sha: Hasher, test: DuplicateTest, e: Engine, lenderName: string, groupName: string, key: string, i: nat)
    requires i < |e.groups|
    requires TotalLended(e.groups[i].lenders) == e.groups[i].totalAmount
    requires PledgeAmount(e.groups[i]) > 0.0
    requires Eligible(e.groups[i], groupName, Balance(e.chain, lenderName))
    requires forall j :: 0 <= j < i ==> !Eligible(e.groups[j], groupName, Balance(e.chain, lenderName))
    requires !HasLender(e.groups[i].lenders, lenderName)
    ensures var (e', ok) := AddLenderToGroup(sha, test, e, lenderName, groupName, key);
            ok && TotalLended(e'.groups[i].lenders) > e.groups[i].totalAmount
  {
    AddLenderSuccess(sha, test, e, lenderName, groupName, key, i);
  }

  /** The request a join queues is not checked: when the pledge exceeds the
      request cap, the request is refused but the pledge is recorded. */
  lemma PledgeRecordedDespiteRefusedRequest(sha: Hasher, test: DuplicateTest, e: Engine, lenderName: string, groupName: string, key: string, i: nat)
    requires i < |e.groups|
    requires Eligible(e.groups[i], groupName, Balance(e.chain, lenderName))
    requires forall j :: 0 <= j < i ==> !Eligible(e.groups[j], groupName, Balance(e.chain, lenderName))
    requires !HasLender(e.groups[i].lenders, lenderName)
    requires PledgeAmount(e.groups[i]) > MaxAmountMinable as real
    ensures var (e', ok) := AddLenderToGroup(sha, test, e, lenderName, groupName, key);
            ok && e'.pending == e.pending && |e'.groups[i].lenders| == |e.groups[i].lenders| + 1
  {
    AddLenderSuccess(sha, test, e, lenderName, groupName, key, i);
  }

  // ---------------------------------------------------------------------
  // Concrete runs
  // ---------------------------------------------------------------------

  lemma NetFlowSingle(r: Request, name: string)
    ensures NetFlow([r], name) == Delta(r, name)
  {
    assert [r][..0] == [];
  }

  lemma GenesisBalances(sha: Hasher, requestDate: Timestamp, creationDate: Timestamp)
    requires AlwaysMineable(sha, Difficulty)
    ensures var e := Init(sha, requestDate, creationDate);
            Balance(e.chain, "Femi") == 100 && Balance(e.chain, "femi") == 100 && Balance(e.chain, "John") == 0
  {
    var e := Init(sha, requestDate, creationDate);
    var mint := e.chain[0].request;
    assert Requests(e.chain) == [mint];
    assert Lower("Femi") == "femi";
    assert Lower("femi") == "femi";
    assert Lower("John")[0] == 'j';
    NetFlowSingle(mint, "Femi");
    NetFlowSingle(mint, "femi");
    NetFlowSingle(mint, "John");
  }

  /** Femi's request within the cap and Femi's committed balance, to a
      borrower other than Femi, is accepted by the source's checks when no
      pending request stores the new request's hash. */
  lemma FemiCanLend(sha: Hasher, e: Engine, borrower: string, amount: real)
    requires borrower != "" && Lower(borrower) != Lower("Femi")
    requires 0.0 < amount <= MaxAmountMinable as real && amount <= Balance(e.chain, "Femi") as real
    requires forall i :: 0 <= i < |e.pending| ==>
      e.pending[i].requestHash != RequestHash(sha, Some("Femi"), borrower, Truncate(amount), e.requestDate)
    ensures SubmitRequest(sha, ByHash, e, "Femi", borrower, amount).Ok?
  {
    forall err ensures !Fails(sha, ByHash, e, "Femi", borrower, amount, err) {
    }
  }

  /** Femi lends 50 to John and the requests are committed: the commit mints
      another 100 for Femi, so Femi ends at 150, John at 50, the chain holds
      three records, and "femi" (lower case) is credited with both mints but
      not debited for the loan. */
  lemma FemiLendsFiftyToJohn(sha: Hasher, requestDate: Timestamp, creationDate: Timestamp)
    requires AlwaysMineable(sha, Difficulty)
    ensures var e0 := Init(sha, requestDate, creationDate);
            var s := SubmitRequest(sha, ByHash, e0, "Femi", "John", 50.0);
            s.Ok? &&
            var e1 := Commit(sha, s.value.engine);
            && |e1.chain| == 3
            && Balance(e1.chain, "Femi") == 150
            && Balance(e1.chain, "John") == 50
            && Balance(e1.chain, "femi") == 200
            && ValidChain(sha, e1.chain)
  {
    var e0 := Init(sha, requestDate, creationDate);
    GenesisBalances(sha, requestDate, creationDate);
    assert Lower("Femi") == "femi";
    assert Lower("femi") == "femi";
    assert Lower("John")[0] == 'j';
    FemiCanLend(sha, e0, "John", 50.0);
    var s := SubmitRequest(sha, ByHash, e0, "Femi", "John", 50.0);
    var e := s.value.engine;
    var req := s.value.request;
    assert e.pending == [req];
    NetFlowSingle(req, "Femi");
    NetFlowSingle(req, "John");
    NetFlowSingle(req, "femi");
    CommitBalance(sha, e, "Femi");
    CommitBalance(sha, e, "John");
    CommitBalance(sha, e, "femi");
    InitInv(sha, requestDate, creationDate);
    SubmitInv(sha, ByHash, e0, "Femi", "John", 50.0);
    CommitInv(sha, e);
    InvImpliesValid(sha, Commit(sha, e));
  }

  /** Balances ignore pending requests, so a lender can queue several
      requests that each fit the balance but together overdraw it: three
      loans of 100 from Femi's 100 are all accepted, and after the commit
      (which mints 100 more) Femi's balance is -100. The three requests are
      told apart only by their hashes, so the hash function must give them
      different digests. */
  lemma OverdraftThroughPending(sha: Hasher, requestDate: Timestamp, creationDate: Timestamp)
    requires AlwaysMineable(sha, Difficulty)
    requires RequestHash(sha, Some("Femi"), "John", 100, requestDate) != RequestHash(sha, Some("Femi"), "Jane", 100, requestDate)
    requires RequestHash(sha, Some("Femi"), "John", 100, requestDate) != RequestHash(sha, Some("Femi"), "Jim", 100, requestDate)
    requires RequestHash(sha, Some("Femi"), "Jane", 100, requestDate) != RequestHash(sha, Some("Femi"), "Jim", 100, requestDate)
    ensures var e0 := Init(sha, requestDate, creationDate);
            var s1 := SubmitRequest(sha, ByHash, e0, "Femi", "John", 100.0);
            s1.Ok? &&
            var s2 := SubmitRequest(sha, ByHash, s1.value.engine, "Femi", "Jane", 100.0);
            s2.Ok? &&
            var s3 := SubmitRequest(sha, ByHash, s2.value.engine, "Femi", "Jim", 100.0);
            s3.Ok? &&
            Balance(Commit(sha, s3.value.engine).chain, "Femi") == -100
  {
    var e0 := Init(sha, requestDate, creationDate);
    GenesisBalances(sha, requestDate, creationDate);
    assert Lower("Femi")[0] == 'f';
    assert Lower("John")[0] == 'j' && Lower("Jane")[0] == 'j' && Lower("Jim")[0] == 'j';
    FemiCanLend(sha, e0, "John", 100.0);
    var s1 := SubmitRequest(sha, ByHash, e0, "Femi", "John", 100.0);
    var e1 := s1.value.engine;
    FemiCanLend(sha, e1, "Jane", 100.0);
    var s2 := SubmitRequest(sha, ByHash, e1, "Femi", "Jane", 100.0);
    var e2 := s2.value.engine;
    FemiCanLend(sha, e2, "Jim", 100.0);
    var s3 := SubmitRequest(sha, ByHash, e2, "Femi", "Jim", 100.0);
    var e3 := s3.value.engine;
    var r1, r2, r3 := s1.value.request, s2.value.request, s3.value.request;
    assert e3.pending == [r1] + [r2] + [r3];
    NetFlowSingle(r1, "Femi");
    NetFlowSingle(r2, "Femi");
    NetFlowSingle(r3, "Femi");
    NetFlowConcat([r1], [r2], "Femi");
    NetFlowConcat([r1] + [r2], [r3], "Femi");
    CommitBalance(sha, e3, "Femi");
  }

  // ---------------------------------------------------------------------
  // Duplicate detection keyed on the request hash
  // ---------------------------------------------------------------------

  /** The hash input concatenates lender and borrower with no separator, so
      a request from "a" to "bc" hashes like a pending one from "ab" to "c":
      whatever the hash function, the source's engine refuses it as a
      duplicate, although no pending request has its lender and borrower,
      and the corrected engine accepts it. */
  lemma ConcatenatedHashCollides(sha: Hasher, e: Engine)
    requires e.pending == [NewRequest(sha, Some("ab"), "c", 10, e.requestDate)]
    requires Balance(e.chain, "a") >= 10
    ensures SubmitRequest(sha, ByHash, e, "a", "bc", 10.0) == Err(DuplicateRequest)
    ensures SubmitRequest(sha, ByContent, e, "a", "bc", 10.0).Ok?
  {
    assert RequestPreimage(Some("ab"), "c", 10, e.requestDate) == RequestPreimage(Some("a"), "bc", 10, e.requestDate) by {
      assert OptionText(Some("ab")) + "c" == OptionText(Some("a")) + "bc";
    }
    assert |Lower("a")| != |Lower("bc")|;
    assert Truncate(10.0) == 10;
    assert e.pending[0].requestHash == RequestHash(sha, Some("a"), "bc", 10, e.requestDate);
    assert !DuplicatePending(e.pending, Some("a"), "bc", Truncate(10.0), e.requestDate);
  }

  /** Every true duplicate is also caught by the hash test, so the content
      comparison refuses exactly the requests the hash test refuses minus
      its false matches. */
  lemma ContentDuplicateIsHashDuplicate(sha: Hasher, pending: seq<Request>, lender: Option<string>, borrower: string, amount: int, date: Timestamp)
    requires forall i :: 0 <= i < |pending| ==> WellHashed(sha, pending[i])
    requires DuplicatePending(pending, lender, borrower, amount, date)
    ensures DuplicateByHash(sha, pending, lender, borrower, amount, date)
  {
    var i :| 0 <= i < |pending| && pending[i].lender == lender && pending[i].borrower == borrower &&
             pending[i].amount == amount && pending[i].requestDate == date;
    assert WellHashed(sha, pending[i]);
  }

  /** With the content comparison, a request that differs from every pending
      one in lender, borrower, amount or date is never refused as a duplicate. */
  lemma DistinctRequestNotDuplicate(sha: Hasher, e: Engine, lender: string, borrower: string, amount: real)
    requires forall i :: 0 <= i < |e.pending| ==>
      e.pending[i].lender != Some(lender) || e.pending[i].borrower != borrower ||
      e.pending[i].amount != Truncate(amount) || e.pending[i].requestDate != e.requestDate
    ensures SubmitRequest(sha, ByContent, e, lender, borrower, amount) != Err(DuplicateRequest)
  {
  }
}
