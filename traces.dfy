/** Sequences of invocations of the contract's public operations, and what holds along them. */
module Traces {
  import opened Keys
  import opened Work
  import opened Ledger
  import opened Queries
  import opened Operations
  import opened Invariants
  import opened Rules

  /** One invocation, with its caller identities and the hashes it would generate. */
  datatype Call =
    | CreateOrganisationCall(name: string, user: UInt160, creatorName: string, newOrgId: Option<Bytes>,
                             newMemberId: Option<Bytes>, orgHash: Hash32, memberHash: Hash32)
    | AddMemberOfOrgCall(sender: UInt160, orgId: Bytes, myName: string, newMemberId: Option<Bytes>, memberHash: Hash32)
    | CreateTransactionCall(orgId: Bytes, userId: UInt160, amount: int, evidenceCid: string, refNo: string,
                            newTransId: Option<Bytes>, transHash: Hash32, token: UInt160)
    | VoteCall(sender: UInt160, token: UInt160, transId: Bytes, voteFor: bool)
    | UpdateMemberVoteRulesCall(sender: UInt160, orgId: Bytes, voteForRequired: U16)
    | UpdateMemberAsApprovedCall(orgId: Bytes, memberId: Bytes)

  ghost function Outcome(st: Store, h: VoteHasher, c: Call): Result<Store>
  {
    match c
    case CreateOrganisationCall(name, user, creatorName, orgId, memberId, orgHash, memberHash) =>
      CreateOrganisation(st, name, user, creatorName, orgId, memberId, orgHash, memberHash)
    case AddMemberOfOrgCall(sender, orgId, myName, memberId, memberHash) =>
      AddMemberOfOrg(st, sender, orgId, myName, memberId, memberHash)
    case CreateTransactionCall(orgId, userId, amount, evidenceCid, refNo, transId, transHash, token) =>
      CreateTransaction(st, orgId, userId, amount, evidenceCid, refNo, transId, transHash, token)
    case VoteCall(sender, token, transId, voteFor) =>
      Operations.Vote(st, h, sender, token, transId, voteFor)
    case UpdateMemberVoteRulesCall(sender, orgId, voteForRequired) =>
      UpdateMemberVoteRules(st, sender, orgId, voteForRequired)
    case UpdateMemberAsApprovedCall(orgId, memberId) =>
      UpdateMemberAsApproved(st, orgId, memberId)
  }

  /** The store after one invocation: its writes if it succeeds, none if it throws. */
  ghost function Step(st: Store, h: VoteHasher, c: Call): Store
  {
    After(st, Outcome(st, h, c))
  }

  /** The store after a sequence of invocations, in order. */
  ghost function Run(st: Store, h: VoteHasher, calls: seq<Call>): Store
    decreases |calls|
  {
    if calls == [] then st else Run(Step(st, h, calls[0]), h, calls[1..])
  }

  /** Whether `c` is an `AddMemberOfOrg` that succeeds on `st` and writes the proposal `transId`. */
  ghost predicate Rewrites(st: Store, h: VoteHasher, c: Call, transId: Bytes)
  {
    c.AddMemberOfOrgCall? && Outcome(st, h, c).Ok? && ResolveId(c.newMemberId, c.memberHash) == Ok(transId)
  }

  lemma StepKeeps(st: Store, h: VoteHasher, c: Call)
    requires Consistent(st, h)
    ensures Consistent(Step(st, h, c), h) && Extends(st, Step(st, h, c))
  {
    match c
    case CreateOrganisationCall(name, user, creatorName, orgId, memberId, orgHash, memberHash) =>
      CreateOrganisationKeeps(st, h, name, user, creatorName, orgId, memberId, orgHash, memberHash);
    case AddMemberOfOrgCall(sender, orgId, myName, memberId, memberHash) =>
      AddMemberOfOrgKeeps(st, h, sender, orgId, myName, memberId, memberHash);
    case CreateTransactionCall(orgId, userId, amount, evidenceCid, refNo, transId, transHash, token) =>
      CreateTransactionKeeps(st, h, orgId, userId, amount, evidenceCid, refNo, transId, transHash, token);
    case VoteCall(sender, token, transId, voteFor) =>
      VoteKeeps(st, h, sender, token, transId, voteFor);
    case UpdateMemberVoteRulesCall(sender, orgId, voteForRequired) =>
      UpdateMemberVoteRulesKeeps(st, h, sender, orgId, voteForRequired);
    case UpdateMemberAsApprovedCall(orgId, memberId) =>
      UpdateMemberAsApprovedKeeps(st, h, orgId, memberId);
  }

  lemma StepIndexes(st: Store, h: VoteHasher, c: Call)
    requires RecordsIndexed(st)
    ensures RecordsIndexed(Step(st, h, c))
  {
    match c
    case CreateOrganisationCall(name, user, creatorName, orgId, memberId, orgHash, memberHash) =>
      CreateOrganisationIndexes(st, name, user, creatorName, orgId, memberId, orgHash, memberHash);
    case AddMemberOfOrgCall(sender, orgId, myName, memberId, memberHash) =>
      AddMemberOfOrgIndexes(st, sender, orgId, myName, memberId, memberHash);
    case CreateTransactionCall(orgId, userId, amount, evidenceCid, refNo, transId, transHash, token) =>
      CreateTransactionIndexes(st, orgId, userId, amount, evidenceCid, refNo, transId, transHash, token);
    case VoteCall(sender, token, transId, voteFor) =>
      VoteIndexes(st, h, sender, token, transId, voteFor);
    case UpdateMemberVoteRulesCall(sender, orgId, voteForRequired) =>
      UpdateMemberVoteRulesIndexes(st, sender, orgId, voteForRequired);
    case UpdateMemberAsApprovedCall(orgId, memberId) =>
      UpdateMemberAsApprovedIndexes(st, orgId, memberId);
  }

  /** Any sequence of invocations keeps a consistent store consistent, removes no record or index entry, changes no vote and keeps the owner. */
  lemma {:induction false} RunKeeps(st: Store, h: VoteHasher, calls: seq<Call>)
    requires Consistent(st, h)
    ensures Consistent(Run(st, h, calls), h) && Extends(st, Run(st, h, calls))
    decreases |calls|
  {
    if calls != [] {
      var next := Step(st, h, calls[0]);
      StepKeeps(st, h, calls[0]);
      RunKeeps(next, h, calls[1..]);
      ExtendsTransitive(st, next, Run(next, h, calls[1..]));
    }
  }

  /** Any sequence of invocations keeps every record indexed. */
  lemma {:induction false} RunIndexes(st: Store, h: VoteHasher, calls: seq<Call>)
    requires RecordsIndexed(st)
    ensures RecordsIndexed(Run(st, h, calls))
    decreases |calls|
  {
    if calls != [] {
      StepIndexes(st, h, calls[0]);
      RunIndexes(Step(st, h, calls[0]), h, calls[1..]);
    }
  }

  /** Every store reachable from deployment is consistent, has every record indexed, keeps its
      deployer as owner, and never holds a Rejected or rule-change proposal. */
  lemma Reachable(deployer: UInt160, h: VoteHasher, calls: seq<Call>)
    ensures var st := Run(Deploy(EmptyStore, deployer, false), h, calls);
      && Consistent(st, h)
      && RecordsIndexed(st)
      && st.owner == Some(deployer)
      && forall t :: t in st.transactions ==>
           st.transactions[t].decision != Rejected && st.transactions[t].proposalType != OrgRules
  {
    DeployConsistent(deployer, h);
    RunKeeps(Deploy(EmptyStore, deployer, false), h, calls);
    RunIndexes(Deploy(EmptyStore, deployer, false), h, calls);
  }

  /** One invocation leaves an Approved proposal exactly as it was, unless it is an
      `AddMemberOfOrg` that reuses the proposal's id. */
  lemma StepKeepsApproved(st: Store, h: VoteHasher, c: Call, transId: Bytes)
    requires transId in st.transactions && st.transactions[transId].decision == DecisionStatus.Approved
    requires !Rewrites(st, h, c, transId)
    ensures transId in Step(st, h, c).transactions
    ensures Step(st, h, c).transactions[transId] == st.transactions[transId]
  {
    match c
    case CreateTransactionCall(orgId, userId, amount, evidenceCid, refNo, newTransId, transHash, token) =>
      CreateTransactionRules(st, orgId, userId, amount, evidenceCid, refNo, newTransId, transHash, token);
    case VoteCall(sender, token, tid, voteFor) =>
      var r := Operations.Vote(st, h, sender, token, tid, voteFor);
      if r.Ok? {
        var trans := st.transactions[tid];
        var recorded := RecordVote(st, tid, h(tid, sender), Ballot(sender, token, tid, voteFor));
        if tid == transId {
          VoteWithoutResolution(st, h, sender, token, tid, voteFor);
        } else {
          VoteOutcome(st, h, sender, token, tid, voteFor);
          SettleCases(recorded, sender, tid, trans, voteFor);
          if r != Ok(recorded) {
            ResolveWrites(recorded, sender, tid, trans);
          }
        }
      }
    case _ =>
  }

  /** Once Approved, a proposal stays Approved and unchanged through any sequence of invocations
      none of which is an `AddMemberOfOrg` whose member id is the proposal's id: the quorum
      resolves it at most once. */
  lemma {:induction false} RunKeepsApproved(st: Store, h: VoteHasher, calls: seq<Call>, transId: Bytes)
    requires transId in st.transactions && st.transactions[transId].decision == DecisionStatus.Approved
    requires forall i :: 0 <= i < |calls| && calls[i].AddMemberOfOrgCall? ==>
      IdOf(calls[i].newMemberId, calls[i].memberHash) != transId
    ensures transId in Run(st, h, calls).transactions
    ensures Run(st, h, calls).transactions[transId] == st.transactions[transId]
    decreases |calls|
  {
    if calls != [] {
      StepKeepsApproved(st, h, calls[0], transId);
      RunKeepsApproved(Step(st, h, calls[0]), h, calls[1..], transId);
    }
  }

  /** `AddMemberOfOrg` with an explicit member id equal to an Approved proposal's id overwrites
      that proposal with an Undecided NewMember one, so the quorum can resolve it again. */
  lemma AddMemberOfOrgReopens(st: Store, h: VoteHasher, sender: UInt160, orgId: Bytes, myName: string,
                              memberHash: Hash32, transId: Bytes)
    requires transId in st.transactions && st.transactions[transId].decision == DecisionStatus.Approved
    requires orgId in st.orgs && |transId| == 16
    ensures var st' := Step(st, h, AddMemberOfOrgCall(sender, orgId, myName, Some(transId), memberHash));
      && st'.transactions[transId].decision == Undecided
      && st'.transactions[transId].proposalType == NewMember
  {
  }

  /** Two explicit 16-byte ids can forge a Member_Orgs entry: a `CreateOrganisation` whose member
      id and org id concatenate to another user's 32-byte member id writes that whole id into
      Member_Orgs. The scan under the victim's id then yields the empty suffix, which is no
      organisation, so `IsMemberOfOrg` throws for the victim whatever the organisation, and every
      `Vote` and `CreateTransaction` of theirs fails, while the store stays consistent. */
  lemma ForgedJoinLocksOut(st: Store, h: VoteHasher, name: string, creator: UInt160, creatorName: string,
                           memberPart: Bytes, orgPart: Bytes, orgHash: Hash32, memberHash: Hash32,
                           user: UInt160, orgId: Bytes)
    requires Consistent(st, h)
    requires |memberPart| == 16 && |orgPart| == 16 && orgPart !in st.orgs && [] !in st.orgs
    requires IsMember(st, user) == Ok(Some(memberPart + orgPart))
    requires creator != user
    ensures var st' := Step(st, h, CreateOrganisationCall(name, creator, creatorName, Some(orgPart), Some(memberPart), orgHash, memberHash));
      && Consistent(st', h)
      && IsMemberOfOrg(st', orgId, user).Err?
  {
    var victim := memberPart + orgPart;
    var r := CreateOrganisation(st, name, creator, creatorName, Some(orgPart), Some(memberPart), orgHash, memberHash);
    CreateOrganisationRules(st, name, creator, creatorName, Some(orgPart), Some(memberPart), orgHash, memberHash);
    CreateOrganisationEffects(st, name, creator, creatorName, Some(orgPart), Some(memberPart), orgHash, memberHash);
    CreateOrganisationKeeps(st, h, name, creator, creatorName, Some(orgPart), Some(memberPart), orgHash, memberHash);
    var st' := r.value;
    forall s | user + s == creator + memberPart
      ensures false
    {
      SplitJoin(user, s, creator, memberPart);
    }
    assert Find(st'.userMemberLookup, user) == Find(st.userMemberLookup, user);
    assert IsMember(st', user) == IsMember(st, user);
    assert victim + [] == memberPart + orgPart;
    assert [] in Find(st'.memberOrgs, victim);
    assert OrgsOfMember(st', victim).Err?;
  }

  /** A 16-byte proposal id can be a prefix of a 32-byte one. Once the longer proposal has a vote,
      the tally's scan under the shorter id yields a suffix that is no vote id, so every "for" vote
      on the shorter proposal that passes the checks throws while it is still Undecided. */
  lemma PrefixProposalVoteFaults(st: Store, h: VoteHasher, sender: UInt160, token: UInt160,
                                 transId: Bytes, rest: Bytes, voteId: Bytes)
    requires VotesKeyed(st, h)
    requires |transId| == 16 && |rest| == 16
    requires transId in st.transactions && st.transactions[transId].decision == Undecided
    requires voteId in st.votes && (transId + rest) + voteId in st.transVotes
    requires IsMemberOfOrg(st, st.transactions[transId].orgId, sender) == Ok(true)
    requires sender != st.transactions[transId].user && h(transId, sender) !in st.votes
    ensures Operations.Vote(st, h, sender, token, transId, true) == Err(RecordMissing)
  {
    var trans := st.transactions[transId];
    var ballot := Work.Vote(user := sender, transId := transId, voteFor := true, token := token);
    var recorded := RecordVote(st, transId, h(transId, sender), ballot);
    Rules.VoteChecked(st, h, sender, token, transId, true);
    Rules.MembershipNeedsOrg(st, trans.orgId, sender);
    StrayVoteIdFaults(st, h, transId, rest, voteId, h(transId, sender), ballot);
  }

  /** After the vote on `transId` is written, the index entry `transId + rest + voteId` of the
      longer proposal makes the tally under `transId` throw. */
  lemma StrayVoteIdFaults(st: Store, h: VoteHasher, transId: Bytes, rest: Bytes, voteId: Bytes,
                          newId: Hash32, ballot: Work.Vote)
    requires VotesKeyed(st, h)
    requires |rest| == 16 && voteId in st.votes && (transId + rest) + voteId in st.transVotes
    ensures TallyVotes(RecordVote(st, transId, newId, ballot), transId) == Err(RecordMissing)
  {
    var recorded := RecordVote(st, transId, newId, ballot);
    var stray := rest + voteId;
    assert transId + stray == (transId + rest) + voteId;
    assert |voteId| == 32 by {
      assert voteId == h(st.votes[voteId].transId, st.votes[voteId].user);
    }
    assert stray !in st.votes by {
      forall k | k in st.votes ensures |k| == 32 {
        assert k == h(st.votes[k].transId, st.votes[k].user);
      }
    }
    assert stray !in recorded.votes;
    assert stray in Find(recorded.transVotes, transId);
  }
}
