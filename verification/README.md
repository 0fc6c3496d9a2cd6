# Money-lender ledger in Dafny

A model of the in-memory ledger engine `MoneyLenderBlockChain` and of the
entity logic it relies on (`LendingRequest`, `Account`, `GroupLender`). The
engine keeps:

- an append-only chain of sealed records ("accounts"), each sealed by a
  proof-of-work search and linked to the hash of the record before it;
- a queue of pending lending requests;
- the registry of lending groups.

A participant's balance is not stored. It is replayed from the committed
records. Every commit seals the pending requests, followed by one record
that mints 100 for "Femi". A lending group collects pledges of
`totalAmount * splitRate` from lenders. Once the pledges add up to the
total, every pledge receives the same participation credential.

Layout:

- `base.dfy` (`Base`): `Option`, `Result`, ASCII lower-casing, and Python's
  `str` of integers and `int` of floats.
- `sealing.dfy` (`Sealing`): request and record shapes, the request hash,
  the record hash, and the proof-of-work search.
- `groups.dfy` (`Groups`): pledges, groups, `TotalLended` and
  `ProcessLenderStake`.
- `ledger.dfy` (`Ledger`): the engine and its operations. These are the
  constructor, the validity check, balances, request submission, commit,
  group creation and joining a group.
- `ledger_props.dfy` (`LedgerProperties`): lemmas that relate several
  operations. They cover balance changes across a commit, the engine
  invariant, the validity theorem for any run of operations, group-join
  behaviour, concrete runs, and the duplicate-key finding.

Abstractions:

- SHA-256 with hex encoding is a function parameter `sha: string -> string`
  that is never interpreted. The hash inputs are the field texts joined
  together, as the source does it.
- A record's hash input renders the request through `RenderRequest`. This
  stands in for pydantic's text of the request model.
- The sealing search never terminates when no counter works. The
  operations that seal therefore require `AlwaysMineable(sha, 3)`: every
  record content has some sealing counter.
- The sealed counter is `LeastNonce`, a ghost definition. The compiled
  methods (`MiningWork`, `SealAccount`, `NewEngine`,
  `ProcessPendingRequests`) run the source's loops. They are proved equal to
  the functional definitions (`Seal`, `Init`, `Commit`).
- Times are `nat` timestamps. The engine carries the two dates Python fixes
  once, when the request and record classes are defined. Every request and
  every record the engine builds uses them.
- The RSA public key handed out as the participation credential is a
  parameter of `AddLenderToGroup`, because it is fresh randomness.
- `LastAccount` is `return_last_account`. Appending to the chain
  (`create_new_account`) is the sequence append inside `Commit`.
- Floats are exact reals. A request amount is stored as Python's `int()`
  truncation of the submitted amount. This is the coercion the request
  model's integer field applies.

Differences from the source code, where it would crash:

- `is_the_blockchain_valid` calls `calculate_hash_state` on a pydantic
  record, which has no such method, and the sealing counter is never
  stored. The model stores the counter in each record. Its recompute test
  uses that stored counter.
- The duplicate-lender loop of `add_lender_to_group` calls `.lower()` on a
  `Lender` object. The model compares the lender names, ignoring case.

Behaviour of the code that the model keeps:

- Group names are unique only when compared exactly
  (money_lender_blockchain.py:135): "Pool" and "pool" can both be created.
- A funded group keeps accepting lenders (money_lender_blockchain.py:166-170):
  nothing closes it once the pledges reach the total.
- Every commit mints again (money_lender_blockchain.py:121-130). After Femi
  lends 50 to John and a commit, Femi's balance is 150 and the chain holds
  three records (`FemiLendsFiftyToJohn`).
- Duplicate requests are detected by comparing request hashes
  (money_lender_blockchain.py:75-77). The hash is taken over the field texts
  joined with no separator, so different requests can collide (see
  "## Findings").

Duplicate tests. `SubmitRequest`, `AddLenderToGroup` and the engine runs
`Step` and `Run` take a `DuplicateTest`. `ByHash` is the source's test:
some pending request stores the new request's hash. `ByContent` is the
corrected test: some pending request has the same lender, borrower,
amount and date. The invariant and validity theorems hold under both
tests. The concrete runs use `ByHash`. The hash function is not assumed
collision-free, so a run that needs two requests told apart states that
their hashes differ.

## Model

| member | source | states |
|---|---|---|
| `Sealing.NewRequest` | lending_requests.py:63-64 | The stored request hash is the hash of the lender, borrower, amount and date texts. Equal fields give equal hashes. |
| `Sealing.HashInputInjective` | lending_requests.py:76-78 | The record hash input determines the counter: two different counters never give the same text, so each step of the search hashes a new input. |
| `Sealing.ZeroPrefixIsDifficulty` | lending_requests.py:83 | The loop's slice comparison with '0'*d succeeds exactly when the digest has at least d characters and its first d characters are all '0'. |
| `Sealing.LeastNonceExists` | lending_requests.py:80-89 | If some counter seals the content, a smallest sealing counter exists. |
| `Sealing.MiningWork` | lending_requests.py:72-89 | Starting at counter 0 and stepping by one, the search stops at the smallest counter whose hash meets the difficulty, and returns that hash. |
| `Sealing.Seal` | lending_requests.py:67-78 | A sealed record recomputes to its stored hash from its stored counter. The hash has 3 leading zeros, and no smaller counter achieves that. |
| `Sealing.SealAccount` | money_lender_blockchain.py:114-115 | Building an `Account` and reading back its hash yields exactly the sealed record. |
| `Groups.TotalLendedConcat` | lending_requests.py:103-107 | The pledged total of two lists laid end to end is the sum of their totals. |
| `Groups.TotalLendedAppend` | lending_requests.py:103-107 | Appending a pledge of amount a raises the total by exactly a. |
| `Groups.TotalLended` | lending_requests.py:103-107 | A total over pledges that are all non-negative is non-negative. |
| `Groups.UniformPledgesTotal` | lending_requests.py:103-107 | When every pledge has the same amount a, as in any group, the total is the number of lenders times a. |
| `Groups.ProcessLenderStake` | lending_requests.py:109-119 | Every pledge receives the same key. Length, names and amounts are unchanged. |
| `Groups.StakeKeepsTotal` | lending_requests.py:116-119 | Issuing credentials leaves the pledged total unchanged. |
| `Ledger.Init` | money_lender_blockchain.py:5-26 | A fresh engine has no pending requests and no groups. Its chain is one record with no link, lender none, borrower "Femi", amount 100, and a hash that recomputes. |
| `Ledger.NewEngine` | money_lender_blockchain.py:14-26 | The executable constructor builds exactly `Init`. |
| `Ledger.IsTheBlockchainValid` | money_lender_blockchain.py:34-49 | Returns true iff, at every position but the last, the next record links to this hash, this record recomputes, and its date is not after the last record's. |
| `Ledger.CalculateLenderBalance` | money_lender_blockchain.py:93-107 | The loop computes the replay of all committed requests: debit on exact lender match, credit on borrower match ignoring case. |
| `Ledger.SubmitRequest` | money_lender_blockchain.py:51-91 | Accepts iff none of the six checks fails. Under `ByHash` the sixth check is the source's: some pending request stores the new request's hash. A rejection names the failing check that comes first in source order. An acceptance appends exactly one request to pending, built from the lender, borrower, truncated amount and shared date, with its own hash. |
| `Ledger.AfterSubmit` | money_lender_blockchain.py:164 | The join's follow-up request leaves the engine unchanged when refused and appends exactly the new request to pending when accepted. |
| `Ledger.SealAll` | money_lender_blockchain.py:113-116 | Sealing the queue grows the chain by one record per request and keeps the earlier prefix unchanged. |
| `Ledger.SealAllLinks` | money_lender_blockchain.py:113-116 | Each appended record holds the next queued request and links to the hash of the record before it. |
| `Ledger.Commit` | money_lender_blockchain.py:110-130 | The chain grows by pending+1 records with the prefix unchanged. Pending becomes empty. The last record is the mint of 100 to "Femi". Groups are untouched. |
| `Ledger.CommitLinks` | money_lender_blockchain.py:110-130 | The appended records hold the pending requests in queue order and then the mint. Each links to its predecessor's hash and recomputes. |
| `Ledger.ProcessPendingRequests` | money_lender_blockchain.py:110-130 | The executable commit produces exactly `Commit`. |
| `Ledger.CreateLenderGroup` | money_lender_blockchain.py:132-142 | Refuses with no change iff some group has exactly that name. Otherwise it appends one empty group and succeeds. |
| `Ledger.FirstEligible` | money_lender_blockchain.py:146-152 | Finds the first group whose name matches ignoring case and whose pledge the lender's balance covers. A matching group the balance does not cover is skipped. |
| `LedgerProperties.NetFlowConcat` | money_lender_blockchain.py:96-107 | Replaying two request lists in turn adds their effects on a balance. |
| `LedgerProperties.BalanceAppend` | money_lender_blockchain.py:93-107 | One more committed record moves a balance by its request alone: minus the amount for an exact lender match, plus the amount for a borrower match ignoring case. |
| `LedgerProperties.CommitRequests` | money_lender_blockchain.py:113-130 | The committed chain's requests are the old ones, then the pending ones, then the mint. |
| `LedgerProperties.CommitBalance` | money_lender_blockchain.py:93-130 | A commit changes each balance by the net of the pending requests, plus 100 for "Femi" (ignoring case). Pending requests affect no balance until committed. |
| `LedgerProperties.InvImpliesValid` | money_lender_blockchain.py:34-49 | On any engine-built chain the validity check passes. Its date test never fails, because every record carries the one shared date. |
| `LedgerProperties.InitInv` | money_lender_blockchain.py:5-26 | Construction establishes the engine invariant. |
| `LedgerProperties.CommitInv` | money_lender_blockchain.py:110-130 | A commit keeps the invariant. This includes links, recomputable hashes, the single creation date, and distinct pending requests. |
| `LedgerProperties.SubmitInv` | money_lender_blockchain.py:72-80 | Submitting keeps the invariant under either duplicate test. In particular, pending never holds two requests with identical content, because the hash test refuses every content duplicate. |
| `LedgerProperties.CreateGroupInv` | money_lender_blockchain.py:134-141 | Creating a group keeps group names pairwise distinct. |
| `LedgerProperties.AddLenderInv` | money_lender_blockchain.py:155-168 | Joining a group keeps each group's lenders distinct ignoring case, and keeps the rest of the invariant. |
| `LedgerProperties.StepInv` | money_lender_blockchain.py:51-172 | Every engine operation keeps the invariant, under either duplicate test. |
| `LedgerProperties.RunStaysValid` | money_lender_blockchain.py:34-49 | After any sequence of operations, under either duplicate test, the invariant holds and the chain passes the validity check. |
| `LedgerProperties.ValidAfterAnyRun` | money_lender_blockchain.py:5-49 | From construction, every sequence of operations leaves a valid chain. |
| `LedgerProperties.LastRecordNotRechecked` | money_lender_blockchain.py:35 | The last record's own hash is never checked. Replacing its request, counter and hash while keeping its link and date leaves a valid chain valid. |
| `LedgerProperties.GroupNamesCaseSensitive` | money_lender_blockchain.py:134-137 | "Pool" and then "pool" are both created, giving two groups whose names agree ignoring case. |
| `Ledger.AddLenderToGroup` | money_lender_blockchain.py:144-172 | A join succeeds iff a group matches the name ignoring case with a pledge the balance covers, and the lender is not already in the first such group. A refused join changes nothing. |
| `LedgerProperties.AddLenderNoSuchGroup` | money_lender_blockchain.py:146-149 | With no group matching the name ignoring case, the join returns false with no change. |
| `LedgerProperties.AddLenderSuccess` | money_lender_blockchain.py:155-170 | On success: exactly one pledge of total*split is appended to the chosen group, and its total rises by that much. Every pledge gets the credential iff the total then equals the target. The chain and the other groups are unchanged. Pending is what submitting the pledge leaves, whatever the outcome. |
| `LedgerProperties.FundedGroupStillAcceptsLenders` | money_lender_blockchain.py:166-170 | A group already funded still accepts an eligible new lender, and its pledged total then exceeds the target. |
| `LedgerProperties.PledgeRecordedDespiteRefusedRequest` | money_lender_blockchain.py:160-164 | When the pledge exceeds the request cap, the follow-up request is refused but the pledge is still recorded and the join reports success. |
| `LedgerProperties.GenesisBalances` | money_lender_blockchain.py:14-26 | After construction "Femi" (and "femi") has 100 and "John" has 0. |
| `LedgerProperties.FemiCanLend` | money_lender_blockchain.py:54-80 | Femi's request within the cap and the committed balance, to a non-blank borrower other than Femi, is accepted by the source's checks when no pending request stores its hash. |
| `LedgerProperties.FemiLendsFiftyToJohn` | money_lender_blockchain.py:51-130 | Femi lends 50 to John and a commit follows. The result: Femi 150, John 50, "femi" 200 (credited but never debited), three records, valid chain. |
| `LedgerProperties.OverdraftThroughPending` | money_lender_blockchain.py:62-63 | The balance check ignores pending requests. Three loans of 100 from Femi's 100, with distinct hashes, are all accepted, and after the commit Femi's balance is -100. |
| `LedgerProperties.ConcatenatedHashCollides` | lending_requests.py:63-64 | For every hash function, with pending "ab"→"c" for 10, the source's engine refuses "a"→"bc" for 10 as a duplicate. The corrected engine accepts it. |
| `LedgerProperties.ContentDuplicateIsHashDuplicate` | money_lender_blockchain.py:75-77 | Every request with identical content in pending is also caught by the hash test. |
| `LedgerProperties.DistinctRequestNotDuplicate` | money_lender_blockchain.py:75-77 | With the content comparison, a request differing from every pending one is never refused as a duplicate. |

## Left out

- The HTTP layer (money_lender_app.py): routes, JSON rendering and server startup. The `jsonify(...), 400` returns of `create_new_lending_request` are the typed `RequestError` result.
- The request-schema classes `create_request`, `balance`, `create_group` and `add_lender`, which validate input at the HTTP boundary.
- Real SHA-256, hex encoding and pydantic's exact text of a model. The hash is an uninterpreted parameter.
- Non-termination of the sealing search when no counter works. Sealing requires `AlwaysMineable`.
- RSA key generation and signing. The credential is a parameter. The signature is computed and then discarded by the source.
- `GroupLender.calculate_hash` and the `groupHash`/`groupCreationDate` fields. They only feed the discarded signature.
- Float rounding in `totalAmount * splitRate` and in the funded-equals-target test. Exact reals are used.
- Unicode case folding: `Lower` lower-cases ASCII letters only.
- The unused `miningDifficulty` field, `print` output, and the timing inside `miningWork`.
- The default split rate of 0.25 of `create_lender_group`. Callers always pass it.

## Findings

| source | as written | input that shows it | evidently intended | confidence | as-written member | corrected member |
|---|---|---|---|---|---|---|
| lending_requests.py:63-64 | The duplicate key hashes lender, borrower, amount and date joined with no separator. | Pending "ab"→"c" for 10: a new request "a"→"bc" for 10 on the same date has the same hash input and is rejected as a duplicate. | Reject only a request whose lender, borrower, amount and date equal a pending one. | medium, not executed | `LedgerProperties.ConcatenatedHashCollides` | `LedgerProperties.DistinctRequestNotDuplicate` |

`SubmitRequest` with `ByHash` is the code as written. With `ByContent` it is the corrected test, `DuplicatePending`, which compares the four fields. `ContentDuplicateIsHashDuplicate` shows that every true duplicate is also rejected by the hash test, so the two tests differ only in the hash test's false matches. The invariant and validity theorems (`SubmitInv`, `StepInv`, `RunStaysValid`) are proved for both tests.
