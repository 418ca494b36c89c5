# DAOCake governance contract, modelled in Dafny

DAOCake is a NEO N3 smart contract for small decentralised organisations. Anyone can create an
organisation and becomes its first, pre-approved member. Others ask to join with
`AddMemberOfOrg`, which files a NewMember proposal. Members file Pay proposals
("transactions") with `CreateTransaction`. Every proposal is decided by `Vote`: once the "for"
votes reach the organisation's `VoteForRequired`, the proposal becomes Approved and its kind takes
effect. A NewMember proposal approves the member. A rule-change (OrgRules) proposal would reset the
threshold.

All state lives in prefix-separated storage maps:

- four record stores: Orgs 0xAA, Members 0xAC, Transactions 0x00 and Votes 0x05;
- five index maps whose keys are byte concatenations: Org_Members `orgId + memberId`, Member_Orgs
  `memberId + orgId`, User_Member_Lookup `user + memberId`, Org_Transactions `orgId + transId`
  and Trans_Votes `transId + voteId`;
- an `Owner` metadata entry.

Indexes are read with `Find(prefix, KeysOnly | RemovePrefix)`.

The project is organised as follows:

- `keys.dfy` (module `Keys`): bytes, identifiers and storage prefixes. It also holds the prefix
  scan `Find` and the order in which storage iterates keys.
- `work.dfy` (module `Work`): the records and enumerations of `Classes/Work.cs`, with their field
  initialisers as constructor defaults.
- `ledger.dfy` (module `Ledger`): the whole storage as one `Store` value, plus the errors an
  invocation can throw.
- `queries.dfy` (module `Queries`): every read-only entry point, as a function of the store.
- `operations.dfy` (module `Operations`): every state-changing entry point, as a function from
  the store to the new store or the error. When an invocation throws, NEO discards all of its
  writes, so an error always means "store unchanged".
- `rules.dfy` (module `Rules`): what each operation demands and does, one invocation at a time.
- `invariants.dfy` (module `Invariants`): the consistency of reachable stores, and what it buys.
  Consistency (`Consistent`) says every vote sits at its id and is indexed, every proposal
  belongs to a stored organisation, and every index entry points at a stored record. A second invariant, `RecordsIndexed`, gives the other direction:
  every proposal is indexed under its organisation, every NewMember proposal has its member, and
  every member is in User_Member_Lookup. Each operation is proved to keep both.
- `traces.dfy` (module `Traces`): sequences of invocations. It proves that every store reachable
  from deployment is consistent, and that a proposal, once approved, is never resolved again
  unless `AddMemberOfOrg` reuses its id.
- `contract.dfy` (module `Contract`): the class `DAOCakeContract`. It has one field per storage
  map. Its methods make the contract's `Put` calls in the contract's order and revert them when
  the invocation throws part-way. Each method is proved to end in exactly the store and error
  that the matching `Operations` function gives. The tally loop and the `IsMember` loop are
  proved against `Queries.TallyVotes` and `Queries.IsMember`.

Where the intended design and the code differ, the model follows the code:

- **`IsMember` takes the last entry.** It returns the member id of the user's lookup entry that
  storage iterates last, because the `continue` at DAOCakeContract.cs:538 does not stop the
  loop. Its Approved filter has no effect, because DAOCakeContract.cs:557 returns the id anyway.
  Membership of an organisation therefore rests only on the `memberId + orgId` entry of Member_Orgs. That entry is written by
  `CreateOrganisation` and `UpdateMemberAsApproved`, and never by `AddMemberOfOrg`.
- **Resolving a rule change needs the owner.** It calls the owner-gated `UpdateMemberVoteRules`,
  so the resolving vote fails unless its sender is the contract owner.
- **Every proposal `CreateTransaction` files is a Pay proposal.** `CreateTransaction` never sets
  `ProposalType`, so it always stores a Pay proposal. `AddMemberOfOrg` files NewMember proposals,
  and no operation creates an OrgRules proposal.
- **No duplicate check in `AddMemberOfOrg`.** It does not check its member id, which is also its
  proposal id. An explicit id can overwrite an existing member and an existing proposal, even an
  Approved one, which then becomes Undecided again.
- **`UpdateMemberAsApproved` is public and unchecked.** It is a public entry point that checks
  nothing about its caller.
- **Identifier lengths.** Explicit identifiers must be 16 bytes long, but generated ones are
  32-byte SHA-256 outputs. A 16-byte id can therefore be a prefix of a 32-byte one, and a scan
  under the shorter id then returns suffixes that are not identifiers. Reading a suffix that is
  not a stored id faults (`RecordMissing`). `Invariants` proves that scans never fault when all
  ids of a kind have the same length. `IsMember` never faults on a reachable store, because
  accounts are all 20 bytes long. A 16-byte proposal id that prefixes a 32-byte one with a vote
  makes every "for" vote on the shorter proposal throw (`Traces.PrefixProposalVoteFaults`).
- **A forged join locks a member out.** `CreateOrganisation` with an explicit org id B and an
  explicit member id A, both 16 bytes, writes the key `A + B` into Member_Orgs. When `A + B`
  is another user's generated 32-byte member id, the scan under that id yields the empty
  suffix, which is no organisation. That user's `IsMemberOfOrg` then throws, so every
  `Vote` and `CreateTransaction` of theirs fails (`Traces.ForgedJoinLocksOut`), while the
  store stays consistent.
- **The acting user is passed in.** `CreateOrganisation` and `CreateTransaction` take the
  acting user as a parameter instead of reading `Tx.Sender`.

Caller identities (`Tx.Sender`, `Runtime.CallingScriptHash`) are parameters. So are the SHA-256
outputs the contract would compute for generated identifiers (`orgHash`, `memberHash`,
`transHash`). The vote id `Sha256(Serialize([transId, user]))` is an uninterpreted function
`voteHash`. No hash into 32-byte values is injective, so no lemma assumes that. Exactly one
lemma, `Invariants.VoteIdTakenIffVoted`, assumes that no other pair shares the vote id of the
pair it is about (`NoCollisionAt`).

## Model

Paths are relative to the repository root. `DAOCakeContract.cs` is
`contracts/DAOCake/src/DAOCakeContract.cs`, and `Work.cs` is
`contracts/DAOCake/src/Classes/Work.cs`. Each operation is defined as a function in module
`Operations`. Its properties are stated by the `Rules`, `Invariants` and `Traces` lemmas below,
and by the `Contract` method that implements it.

| member | source | states |
|---|---|---|
| Keys.SeparateStores | contracts/DAOCake/src/DAOCakeContract.cs:21-31 | two raw storage keys coincide iff they have the same prefix and the same key: distinct maps never share a key, and within a map distinct keys stay distinct |
| Keys.BelowIrreflexive | contracts/DAOCake/src/DAOCakeContract.cs:529-538 | no key comes before itself in storage iteration order |
| Keys.BelowTransitive | contracts/DAOCake/src/DAOCakeContract.cs:529-538 | storage iteration order is transitive |
| Keys.BelowTotal | contracts/DAOCake/src/DAOCakeContract.cs:529-538 | of two distinct keys, one is iterated before the other |
| Keys.Find | contracts/DAOCake/src/DAOCakeContract.cs:529 | a scan yields exactly the remainders `s` for which `prefix + s` is a key of the index |
| Keys.FindAfterInsert | contracts/DAOCake/src/DAOCakeContract.cs:344-365 | after `transId + voteId` is put, the scan under `transId` yields the earlier remainders plus `voteId` |
| Work.DecisionStatusOf | contracts/DAOCake/src/Classes/Work.cs:9 | exactly 0, 1 and 2 are DecisionStatus values, and each maps back to its number |
| Work.DecisionStatusRoundTrip | contracts/DAOCake/src/Classes/Work.cs:9 | Undecided, Approved and Rejected round-trip through 0, 1 and 2 |
| Work.QueryTypeOf | contracts/DAOCake/src/Classes/Work.cs:11 | exactly 0 (None) and 1 (User) are QueryType values |
| Work.MemberQueryTypeOf | contracts/DAOCake/src/Classes/Work.cs:12 | exactly 0 (All) and 1 (Approved) are MemberQueryType values |
| Work.ProposalTypeOf | contracts/DAOCake/src/Classes/Work.cs:14 | exactly 0 (Pay), 1 (NewMember) and 2 (OrgRules) are ProposalType values |
| Work.FreshRecords | contracts/DAOCake/src/Classes/Work.cs:16-67 | a fresh proposal is Undecided, Pay, Total 0; a fresh vote is against; a fresh organisation has MemberCount 1 and VoteForRequired 1; a fresh member is Undecided |
| Queries.Load | contracts/DAOCake/src/DAOCakeContract.cs:461-465 | reading records by id succeeds iff every id has a record, and returns exactly those records |
| Queries.Votes | contracts/DAOCake/src/DAOCakeContract.cs:452-467 | succeeds iff every vote id indexed under the proposal has a vote; returns exactly those votes |
| Queries.MembersOfOrg | contracts/DAOCake/src/DAOCakeContract.cs:471-486 | succeeds iff every member indexed under the organisation exists; returns exactly those members |
| Queries.OrgsOfMember | contracts/DAOCake/src/DAOCakeContract.cs:489-504 | succeeds iff every organisation indexed under the member exists; returns exactly those organisations |
| Queries.GetMemberObj | contracts/DAOCake/src/DAOCakeContract.cs:561-568 | returns the member record iff it exists, otherwise fails with "memberId does not exist" (`MemberNotFound`) |
| Queries.IsMember | contracts/DAOCake/src/DAOCakeContract.cs:520-558 | none iff the user has no lookup entry; otherwise the id the scan yields last, whatever its approval; faults iff an entry has no member |
| Queries.IsMemberOfOrg | contracts/DAOCake/src/DAOCakeContract.cs:507-518 | true iff the id `IsMember` picks has `memberId + orgId` in Member_Orgs (and its organisations can be read); faults iff one of those reads faults |
| Queries.OrgsOfMemberByUser | contracts/DAOCake/src/DAOCakeContract.cs:572-576 | the organisations of the id `IsMember` picks, exactly as `OrgsOfMember` returns them; fails with `IsMember`'s error when that faults, and throws for a user without members |
| Queries.OwingsQuery | contracts/DAOCake/src/DAOCakeContract.cs:613-628 | succeeds iff every proposal indexed under the organisation exists; keeps all of them, or with User only those by the user |
| Queries.OwingsToUser | contracts/DAOCake/src/DAOCakeContract.cs:633-643 | succeeds iff every proposal indexed under the organisation exists (otherwise `RecordMissing`); then exactly the organisation's proposals whose User is the given user, with their stored records |
| Queries.OwingsByOrg | contracts/DAOCake/src/DAOCakeContract.cs:646-656 | succeeds iff every proposal indexed under the organisation exists (otherwise `RecordMissing`); then exactly the proposals indexed under it, with their stored records |
| Queries.Owings | contracts/DAOCake/src/DAOCakeContract.cs:659-674 | succeeds iff every proposal indexed under the 20-byte organisation id exists (otherwise `RecordMissing`); then exactly those proposals, with their stored records |
| Queries.TallyVotes | contracts/DAOCake/src/DAOCakeContract.cs:362-371 | succeeds iff every indexed vote exists; counts every indexed vote and the "for" ones, with votesFor at most votes |
| Operations.ResolveId | contracts/DAOCake/src/DAOCakeContract.cs:121-132 | an explicit id is used iff it is 16 bytes long; without one the generated 32-byte hash is used |
| Rules.CreateOrganisationRules | contracts/DAOCake/src/DAOCakeContract.cs:119-166 | fails iff an explicit org or member id is not 16 bytes or the org id exists |
| Rules.CreateOrganisationEffects | contracts/DAOCake/src/DAOCakeContract.cs:139-177 | on success the org id was unused; orgs gains exactly the new org (MemberCount 1, VoteForRequired 1), members exactly the Approved creator, and the three indexes exactly their entries; nothing else changes |
| Rules.AddMemberOfOrgRules | contracts/DAOCake/src/DAOCakeContract.cs:242-273 | fails iff the org is absent or an explicit member id is not 16 bytes; no duplicate check |
| Rules.AddMemberOfOrgEffects | contracts/DAOCake/src/DAOCakeContract.cs:252-297 | on success members becomes the old map with an Undecided member at the id, and transactions the old map with an Undecided NewMember proposal at the same id; indexed under org and sender but not in Member_Orgs; nothing else changes |
| Rules.CreateTransactionRules | contracts/DAOCake/src/DAOCakeContract.cs:404-429 | succeeds iff `IsMemberOfOrg` is true, the org exists, an explicit id is 16 bytes and the id is unused |
| Rules.CreateTransactionEffects | contracts/DAOCake/src/DAOCakeContract.cs:431-443 | on success the org exists and the id was unused; exactly one new Undecided Pay proposal with Total = amount, indexed at orgId + transId; nothing else changes |
| Rules.UpdateMemberVoteRulesRules | contracts/DAOCake/src/DAOCakeContract.cs:184-210 | succeeds iff the sender is the owner and the org exists; only the org's threshold changes |
| Rules.UpdateMemberAsApprovedRules | contracts/DAOCake/src/DAOCakeContract.cs:217-235 | fails on a missing member or org; otherwise approves the member, adds memberId + orgId, and raises that org's MemberCount by exactly 1; nothing else changes |
| Rules.VoteRules | contracts/DAOCake/src/DAOCakeContract.cs:307-344 | success needs a stored proposal, a sender who passes `IsMemberOfOrg`, is not the proposer and has no vote id yet; it adds exactly one vote and one index entry |
| Rules.VoteOutcome | contracts/DAOCake/src/DAOCakeContract.cs:307-344 | a successful vote passed every check (stored proposal, `IsMemberOfOrg` true, not the proposer, free vote id) and its result is the settlement of the store with the vote written |
| Rules.SettleSucceeds | contracts/DAOCake/src/DAOCakeContract.cs:346-392 | with the org stored, the tally readable, no rule change and the member of a NewMember proposal stored, settling succeeds |
| Rules.SettleCases | contracts/DAOCake/src/DAOCakeContract.cs:346-392 | settling never writes a vote; it leaves the recorded store as it is unless an Undecided proposal gets a "for" vote that brings its "for" count to the threshold, in which case the result is the resolution |
| Rules.ResolveWrites | contracts/DAOCake/src/DAOCakeContract.cs:376-392 | a resolution writes only its own proposal's decision among proposals, and no vote |
| Rules.MembershipNeedsOrg | contracts/DAOCake/src/DAOCakeContract.cs:346-349 | passing `IsMemberOfOrg` implies the org exists, so the org check after the vote writes never fails |
| Rules.VoteWithoutResolution | contracts/DAOCake/src/DAOCakeContract.cs:351-359 | a vote against, or on a decided proposal, records the vote and changes nothing else |
| Rules.VoteDecision | contracts/DAOCake/src/DAOCakeContract.cs:359-379 | afterwards Approved iff already Approved, or Undecided with a "for" vote and "for" count ≥ threshold; never Rejected by a vote |
| Rules.VoteResolution | contracts/DAOCake/src/DAOCakeContract.cs:381-392 | NewMember: the whole new store is the decided store with the member Approved, memberId + orgId added and that org's MemberCount + 1; OrgRules: only for the owner, threshold := Total; Pay: nothing more |
| Rules.RuleChangeNeedsOwner | contracts/DAOCake/src/DAOCakeContract.cs:386-387 | a vote that would resolve a rule change fails unless its sender is the owner |
| Rules.SettleRuleChange | contracts/DAOCake/src/DAOCakeContract.cs:376-387 | a "for" vote that brings an Undecided rule change to the threshold fails when its sender is not the owner |
| Invariants.DeployConsistent | contracts/DAOCake/src/DAOCakeContract.cs:704-710 | a first deployment records the deployer as owner, over an empty store that is consistent and has every record indexed |
| Invariants.CreateOrganisationKeeps | contracts/DAOCake/src/DAOCakeContract.cs:119-177 | keeps the store consistent, removes no record or index entry, changes no vote and keeps the owner |
| Invariants.AddMemberOfOrgKeeps | contracts/DAOCake/src/DAOCakeContract.cs:242-297 | keeps the store consistent, removes no record or index entry, changes no vote and keeps the owner |
| Invariants.CreateTransactionKeeps | contracts/DAOCake/src/DAOCakeContract.cs:404-443 | keeps the store consistent, removes no record or index entry, changes no vote and keeps the owner |
| Invariants.UpdateMemberVoteRulesKeeps | contracts/DAOCake/src/DAOCakeContract.cs:184-210 | keeps the store consistent, removes no record or index entry, changes no vote and keeps the owner |
| Invariants.UpdateMemberAsApprovedKeeps | contracts/DAOCake/src/DAOCakeContract.cs:217-235 | keeps the store consistent, removes no record or index entry, changes no vote and keeps the owner |
| Invariants.RecordVoteKeeps | contracts/DAOCake/src/DAOCakeContract.cs:343-344 | writing a fresh vote and its index entry together keeps votes and index in lockstep |
| Invariants.ProposalAddedKeeps | contracts/DAOCake/src/DAOCakeContract.cs:431-443 | a fresh Undecided Pay proposal of a stored org, indexed under it, keeps the store consistent, removes no record or index entry, changes no vote and keeps the owner |
| Invariants.RecordVoteIndexed | contracts/DAOCake/src/DAOCakeContract.cs:343-344 | a vote on a stored proposal written with its index entry keeps each vote indexed and each index entry backed by a vote |
| Invariants.RecordVoteKeyed | contracts/DAOCake/src/DAOCakeContract.cs:326-343 | a vote written at the hash of its own proposal and account keeps every vote at its id |
| Invariants.ApproveKeeps | contracts/DAOCake/src/DAOCakeContract.cs:378-379 | marking a stored proposal Approved keeps the store consistent, removes no record or index entry, changes no vote and keeps the owner |
| Invariants.ResolveKeeps | contracts/DAOCake/src/DAOCakeContract.cs:376-392 | a resolution keeps the store consistent, removes no record or index entry, changes no vote and keeps the owner |
| Invariants.VoteKeeps | contracts/DAOCake/src/DAOCakeContract.cs:307-392 | `Vote` keeps the store consistent, and never changes or removes an earlier vote |
| Invariants.VoteSucceeds | contracts/DAOCake/src/DAOCakeContract.cs:307-392 | in a consistent store with proposal ids of one length whose NewMember proposal has its member, a vote succeeds iff the proposal is stored, the sender passes `IsMemberOfOrg`, is not the proposer and has no vote id yet |
| Invariants.VotedHoldsId | contracts/DAOCake/src/DAOCakeContract.cs:326-334 | once an account has voted on a proposal, the vote id of that pair is taken, whatever the hash |
| Invariants.VoteIdTakenIffVoted | contracts/DAOCake/src/DAOCakeContract.cs:326-334 | where no other pair shares its vote id, the vote id of a pair is taken iff that account already voted on that proposal |
| Invariants.OneVotePerVoter | contracts/DAOCake/src/DAOCakeContract.cs:326-344 | no two stored votes share a proposal and an account |
| Invariants.ForVotesAreBallots | contracts/DAOCake/src/DAOCakeContract.cs:365-369 | the "for" votes the tally finds are exactly the stored "for" votes on that proposal |
| Invariants.ForVotesGrow | contracts/DAOCake/src/DAOCakeContract.cs:365-369 | as the store grows, the "for" votes on a proposal can only grow |
| Invariants.IsMemberDefined | contracts/DAOCake/src/DAOCakeContract.cs:529-536 | in a consistent store `IsMember` never faults |
| Invariants.OrgQueriesDefined | contracts/DAOCake/src/DAOCakeContract.cs:479-484 | with all org ids of one length, `MembersOfOrg` and `OwingsByOrg` never fault |
| Invariants.OrgsOfMemberDefined | contracts/DAOCake/src/DAOCakeContract.cs:497-502 | with all member ids of one length, `OrgsOfMember` never faults |
| Invariants.TallyDefined | contracts/DAOCake/src/DAOCakeContract.cs:362-371 | with all proposal ids of one length, the tally never faults and counts exactly the stored "for" votes |
| Invariants.CreateOrganisationIndexes | contracts/DAOCake/src/DAOCakeContract.cs:139-177 | keeps every proposal indexed under its org, every NewMember proposal backed by a member, and every member in User_Member_Lookup |
| Invariants.AddMemberOfOrgIndexes | contracts/DAOCake/src/DAOCakeContract.cs:252-297 | keeps every proposal indexed under its org, every NewMember proposal backed by a member, and every member in User_Member_Lookup |
| Invariants.CreateTransactionIndexes | contracts/DAOCake/src/DAOCakeContract.cs:431-443 | keeps every proposal indexed under its org, every NewMember proposal backed by a member, and every member in User_Member_Lookup |
| Invariants.UpdateMemberVoteRulesIndexes | contracts/DAOCake/src/DAOCakeContract.cs:184-210 | keeps every record indexed |
| Invariants.UpdateMemberAsApprovedIndexes | contracts/DAOCake/src/DAOCakeContract.cs:217-235 | keeps every record indexed |
| Invariants.ResolveIndexes | contracts/DAOCake/src/DAOCakeContract.cs:376-392 | a resolution keeps every record indexed |
| Invariants.VoteIndexes | contracts/DAOCake/src/DAOCakeContract.cs:307-392 | `Vote` keeps every record indexed |
| Traces.StepKeeps | contracts/DAOCake/src/DAOCakeContract.cs:119-443 | any one invocation keeps the store consistent, removes no record or index entry, changes no vote and keeps the owner |
| Traces.RunKeeps | contracts/DAOCake/src/DAOCakeContract.cs:119-443 | any sequence of invocations keeps the store consistent, removes no record or index entry, changes no vote and keeps the owner |
| Traces.StepIndexes | contracts/DAOCake/src/DAOCakeContract.cs:119-443 | any one invocation keeps every record indexed |
| Traces.RunIndexes | contracts/DAOCake/src/DAOCakeContract.cs:119-443 | any sequence of invocations keeps every record indexed |
| Traces.Reachable | contracts/DAOCake/src/DAOCakeContract.cs:704-710 | every store reachable from deployment is consistent, has every record indexed, keeps its owner, and holds no Rejected or OrgRules proposal |
| Traces.StepKeepsApproved | contracts/DAOCake/src/DAOCakeContract.cs:359-392 | an Approved proposal is unchanged by any invocation other than an `AddMemberOfOrg` that reuses its id |
| Traces.RunKeepsApproved | contracts/DAOCake/src/DAOCakeContract.cs:359-392 | as long as no `AddMemberOfOrg` call reuses its id, an Approved proposal stays unchanged through any sequence of invocations: the quorum resolves it at most once |
| Traces.AddMemberOfOrgReopens | contracts/DAOCake/src/DAOCakeContract.cs:282-294 | `AddMemberOfOrg` with an Approved proposal's id turns it back into an Undecided NewMember proposal |
| Traces.ForgedJoinLocksOut | contracts/DAOCake/src/DAOCakeContract.cs:139-177 | explicit ids A and B whose concatenation is another user's member id make `CreateOrganisation` write a Member_Orgs key that locks that user out: their `IsMemberOfOrg` throws afterwards, while the store stays consistent |
| Traces.PrefixProposalVoteFaults | contracts/DAOCake/src/DAOCakeContract.cs:346-371 | a "for" vote that passes the checks on an Undecided 16-byte proposal fails with `RecordMissing` once a proposal its id prefixes has a vote indexed |
| Traces.StrayVoteIdFaults | contracts/DAOCake/src/DAOCakeContract.cs:362-371 | an index entry of a longer proposal under the proposal's id makes the tally fail with `RecordMissing` |
| Contract.DAOCakeContract.Deploy | contracts/DAOCake/src/DAOCakeContract.cs:703-710 | the owner is recorded on a first deployment only |
| Contract.DAOCakeContract.constructor | contracts/DAOCake/src/DAOCakeContract.cs:704-710 | a fresh contract holds the empty store and satisfies the class invariant |
| Contract.DAOCakeContract.CreateOrganisation | contracts/DAOCake/src/DAOCakeContract.cs:119-181 | ends in exactly the store and error of `Operations.CreateOrganisation`, reverting the org write when the member id is malformed; keeps the class invariant |
| Contract.DAOCakeContract.UpdateMemberVoteRules | contracts/DAOCake/src/DAOCakeContract.cs:184-213 | ends in exactly the store and error of `Operations.UpdateMemberVoteRules`; keeps the class invariant |
| Contract.DAOCakeContract.UpdateMemberAsApproved | contracts/DAOCake/src/DAOCakeContract.cs:217-238 | ends in exactly the store and error of `Operations.UpdateMemberAsApproved`, reverting two writes when the org is missing; keeps the class invariant |
| Contract.DAOCakeContract.AddMemberOfOrg | contracts/DAOCake/src/DAOCakeContract.cs:242-300 | ends in exactly the store and error of `Operations.AddMemberOfOrg`; keeps the class invariant |
| Contract.DAOCakeContract.CreateTransaction | contracts/DAOCake/src/DAOCakeContract.cs:404-446 | ends in exactly the store and error of `Operations.CreateTransaction`; keeps the class invariant |
| Contract.DAOCakeContract.Vote | contracts/DAOCake/src/DAOCakeContract.cs:307-397 | ends in exactly the store and error of `Operations.Vote`; keeps the class invariant |
| Contract.DAOCakeContract.Settle | contracts/DAOCake/src/DAOCakeContract.cs:346-394 | ends in the store and error of `Operations.Settle` on the store with the vote written, reverting to the store before the vote when the org read, the tally or the resolution throws |
| Contract.DAOCakeContract.TallyVotes | contracts/DAOCake/src/DAOCakeContract.cs:362-371 | the tally equals `Queries.TallyVotes` of the current store, and succeeds in a valid store whose proposal ids all have one length |
| Contract.DAOCakeContract.CountVotes | contracts/DAOCake/src/DAOCakeContract.cs:366-371 | succeeds iff every id has a vote; then counts all ids and the "for" votes among them |
| Contract.DAOCakeContract.IsMember | contracts/DAOCake/src/DAOCakeContract.cs:520-558 | the loop in storage order returns `Queries.IsMember` of the current store: the last id it reads; it never faults in a valid store |
| Contract.DAOCakeContract.IsMemberOfOrg | contracts/DAOCake/src/DAOCakeContract.cs:507-518 | returns `Queries.IsMemberOfOrg` of the current store |

## Left out

- Queries.OrgsOfMemberByUser: returns the organisations even for a user with a lookup entry, although the method is `[Safe]` (DAOCakeContract.cs:571) and reaches the `OnLookupMember` event (DAOCakeContract.cs:536) through `IsMember`; under NEO N3's call flags a read-only call may not notify, so the deployed method would fault there. The model does not model call flags or events.
- Events (`OnVote`, `OnNewTransaction`, `OnVotingResolution`, `OnNewOrgMember`, `OnNewOrganisation`, `OnUpdateOrganisation`, `OnLookupMember`) are not modelled. They do not feed back into state, except through the read-only fault named above.
- `CryptoLib.Sha256`, `StdLib.Serialize` and `StdLib.Deserialize` are not modelled: records are stored directly as values, and hashes are parameters or the function `voteHash`.
- `Runtime.GetRandom` is not modelled: generated ids are the hash parameters.
- Signature checking behind `Tx.Sender` is not modelled: the sender is a parameter.
- Null arguments are not modelled. Byte strings and accounts are never null, so the `ArgumentException` guards of the queries and the `user is null` fallback of `IsMember` to `Tx.Sender` do not arise. The one null the code produces itself, `IsMember` finding no member, is modelled as `NullArgument` in `OrgsOfMemberByUser`.
- The `(ByteString)"0"` return of `IsMember` for a null iterator is not modelled: `Find` always returns an iterator, so that branch is dead.
- `ChangeNumber` and `GetNumber` are not modelled: they are test scaffolding marked for removal.
- `UpdateContract` is not modelled: it is a call into `ContractManagement.Update`.
- `GetTransObj`, `GetTransNotify` and `OwingsAsStringMap` are not modelled: they only reshape records for display and emit events.
- Work.Organisation: `MemberCount` is an unbounded `nat`, so the model does not capture the 16-bit wrap-around after 65535 approvals.
- Operations.Resolve: the `(UInt16) trans.Total` cast of a rule change is modelled only for totals in 0..65535. Any other total is a failure (`TotalOutOfRange`), because the framework's conversion semantics are not visible. No rule-change proposal can be created, so this never arises.
- The `(UInt16) votesFor` argument of the `OnVote` event is not modelled, because events are not modelled.
- Deserialising a missing record (`StdLib.Deserialize(null)`) is modelled as the invocation throwing (`RecordMissing`).
- Contract.DAOCakeContract: the class invariant `Valid()` is `Consistent` alone. `RecordsIndexed` is proved of every reachable store (`Traces.Reachable`) but is not carried by the class's methods.
- Atomicity and ordering of invocations are provided by the NEO runtime. The model assumes them and covers only sequential execution.
