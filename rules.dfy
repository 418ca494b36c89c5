/** What each operation of DAOCakeContract.cs demands and does, stated about the functions of
    module Operations one invocation at a time. */
module Rules {
  import opened Keys
  import opened Work
  import opened Ledger
  import opened Queries
  import opened Operations

  /** The identifier an operation ends up using, when its explicit one (if any) is well formed. */
  function IdOf(given: Option<Bytes>, generated: Hash32): Bytes
  {
    if given.Some? then given.value else generated
  }

  // ---------------------------------------------------------------------------------------------
  // CreateOrganisation

  /** It fails exactly when an explicit org or member id is not 16 bytes long or the org id is
      taken; a member id already in use is silently overwritten. */
  lemma CreateOrganisationRules(st: Store, name: string, user: UInt160, creatorName: string,
                                orgId: Option<Bytes>, memberId: Option<Bytes>, orgHash: Hash32, memberHash: Hash32)
    ensures var r := CreateOrganisation(st, name, user, creatorName, orgId, memberId, orgHash, memberHash);
      && (orgId.Some? && |orgId.value| != 16 ==> r == Err(IdLengthInvalid))
      && (ResolveId(orgId, orgHash).Ok? && IdOf(orgId, orgHash) in st.orgs ==> r == Err(OrgExists))
      && (r.Ok? <==> ResolveId(orgId, orgHash).Ok? && ResolveId(memberId, memberHash).Ok? && IdOf(orgId, orgHash) !in st.orgs)
  {
  }

  /** On success the organisation starts with one member and a threshold of one, its creator's
      member record is Approved, and all three index entries linking them are present. */
  lemma CreateOrganisationEffects(st: Store, name: string, user: UInt160, creatorName: string,
                                  orgId: Option<Bytes>, memberId: Option<Bytes>, orgHash: Hash32, memberHash: Hash32)
    requires CreateOrganisation(st, name, user, creatorName, orgId, memberId, orgHash, memberHash).Ok?
    ensures var st' := CreateOrganisation(st, name, user, creatorName, orgId, memberId, orgHash, memberHash).value;
      var oid, mid := IdOf(orgId, orgHash), IdOf(memberId, memberHash);
      && oid !in st.orgs
      && st'.orgs == st.orgs[oid := Organisation(name := name, orgId := oid, creatorUser := user, memberCount := 1, voteForRequired := 1)]
      && st'.members == st.members[mid := Member(name := creatorName, user := user, decision := DecisionStatus.Approved)]
      && st'.orgMembers == st.orgMembers + {oid + mid}
      && st'.memberOrgs == st.memberOrgs + {mid + oid}
      && st'.userMemberLookup == st.userMemberLookup + {user + mid}
      && st'.transactions == st.transactions && st'.orgTransactions == st.orgTransactions
      && st'.votes == st.votes && st'.transVotes == st.transVotes && st'.owner == st.owner
  {
  }

  // ---------------------------------------------------------------------------------------------
  // AddMemberOfOrg

  /** It fails exactly when the organisation is absent or an explicit member id is not 16 bytes.
      Neither the member id nor the proposal id is checked for prior use. */
  lemma AddMemberOfOrgRules(st: Store, sender: UInt160, orgId: Bytes, myName: string, memberId: Option<Bytes>, memberHash: Hash32)
    ensures var r := AddMemberOfOrg(st, sender, orgId, myName, memberId, memberHash);
      && (orgId !in st.orgs ==> r == Err(OrgNotFound))
      && (r.Ok? <==> orgId in st.orgs && ResolveId(memberId, memberHash).Ok?)
  {
  }

  /** On success: an Undecided member, indexed under the organisation and the sender but NOT in
      Member_Orgs, and a NewMember proposal by the sender whose id is the member id, indexed under
      the organisation. */
  lemma AddMemberOfOrgEffects(st: Store, sender: UInt160, orgId: Bytes, myName: string, memberId: Option<Bytes>, memberHash: Hash32)
    requires AddMemberOfOrg(st, sender, orgId, myName, memberId, memberHash).Ok?
    ensures var st' := AddMemberOfOrg(st, sender, orgId, myName, memberId, memberHash).value;
      var mid := IdOf(memberId, memberHash);
      && st'.members == st.members[mid := Member(name := myName, user := sender, decision := Undecided)]
      && st'.orgMembers == st.orgMembers + {orgId + mid}
      && st'.userMemberLookup == st.userMemberLookup + {sender + mid}
      && st'.memberOrgs == st.memberOrgs
      && st'.transactions == st.transactions[mid := ProposalTransaction(orgId := orgId, user := sender, refNo := myName,
                                                       total := 0, decision := Undecided, proposalType := NewMember)]
      && st'.orgTransactions == st.orgTransactions + {orgId + mid}
      && st'.orgs == st.orgs && st'.votes == st.votes && st'.transVotes == st.transVotes && st'.owner == st.owner
  {
  }

  // ---------------------------------------------------------------------------------------------
  // CreateTransaction

  /** It fails unless `userId` passes `IsMemberOfOrg`, the organisation exists, an explicit id is
      16 bytes long and the id is unused. */
  lemma CreateTransactionRules(st: Store, orgId: Bytes, userId: UInt160, amount: int, evidenceCid: string,
                               refNo: string, transId: Option<Bytes>, transHash: Hash32, token: UInt160)
    ensures var r := CreateTransaction(st, orgId, userId, amount, evidenceCid, refNo, transId, transHash, token);
      r.Ok? <==>
        && IsMemberOfOrg(st, orgId, userId) == Ok(true)
        && orgId in st.orgs
        && ResolveId(transId, transHash).Ok?
        && IdOf(transId, transHash) !in st.transactions
  {
  }

  /** On success the organisation exists and the proposal id is fresh; it stores an Undecided Pay
      proposal for `amount` and indexes it under the organisation; nothing else changes. */
  lemma CreateTransactionEffects(st: Store, orgId: Bytes, userId: UInt160, amount: int, evidenceCid: string,
                                 refNo: string, transId: Option<Bytes>, transHash: Hash32, token: UInt160)
    requires CreateTransaction(st, orgId, userId, amount, evidenceCid, refNo, transId, transHash, token).Ok?
    ensures var st' := CreateTransaction(st, orgId, userId, amount, evidenceCid, refNo, transId, transHash, token).value;
      var tid := IdOf(transId, transHash);
      && orgId in st.orgs && tid !in st.transactions
      && st'.transactions == st.transactions[tid := ProposalTransaction(orgId, userId, evidenceCid, refNo, amount, token, Undecided, Pay)]
      && st'.orgTransactions == st.orgTransactions + {orgId + tid}
      && st' == st.(transactions := st'.transactions, orgTransactions := st'.orgTransactions)
  {
  }

  // ---------------------------------------------------------------------------------------------
  // UpdateMemberVoteRules and UpdateMemberAsApproved

  /** Only the recorded owner may set a threshold, and only of an existing organisation; the
      threshold is the only thing that changes. */
  lemma UpdateMemberVoteRulesRules(st: Store, sender: UInt160, orgId: Bytes, voteForRequired: U16)
    ensures var r := UpdateMemberVoteRules(st, sender, orgId, voteForRequired);
      && (r.Ok? <==> st.owner == Some(sender) && orgId in st.orgs)
      && (r.Ok? ==> r.value == st.(orgs := st.orgs[orgId := st.orgs[orgId].(voteForRequired := voteForRequired)]))
  {
  }

  /** It fails when the member is absent; otherwise the member becomes Approved, joins Member_Orgs
      for the organisation, and the organisation counts one member more; nothing else changes. */
  lemma UpdateMemberAsApprovedRules(st: Store, orgId: Bytes, memberId: Bytes)
    ensures var r := UpdateMemberAsApproved(st, orgId, memberId);
      && (memberId !in st.members ==> r == Err(MemberNotFound))
      && (r.Ok? <==> memberId in st.members && orgId in st.orgs)
      && (r.Ok? ==>
            r.value == st.(members := st.members[memberId := st.members[memberId].(decision := DecisionStatus.Approved)],
                           memberOrgs := st.memberOrgs + {memberId + orgId},
                           orgs := st.orgs[orgId := st.orgs[orgId].(memberCount := st.orgs[orgId].memberCount + 1)]))
  {
  }

  // ---------------------------------------------------------------------------------------------
  // Vote

  /** The vote a successful `Vote` records, and its identifier. */
  function Ballot(sender: UInt160, token: UInt160, transId: Bytes, voteFor: bool): Vote
  {
    Work.Vote(user := sender, transId := transId, voteFor := voteFor, token := token)
  }

  /** The checks a successful `Vote` has passed, and what remains: settling the recorded vote. */
  lemma VoteOutcome(st: Store, h: VoteHasher, sender: UInt160, token: UInt160, transId: Bytes, voteFor: bool)
    requires Operations.Vote(st, h, sender, token, transId, voteFor).Ok?
    ensures transId in st.transactions
    ensures IsMemberOfOrg(st, st.transactions[transId].orgId, sender) == Ok(true)
    ensures sender != st.transactions[transId].user && h(transId, sender) !in st.votes
    ensures Operations.Vote(st, h, sender, token, transId, voteFor)
         == Settle(RecordVote(st, transId, h(transId, sender), Ballot(sender, token, transId, voteFor)), sender, transId, st.transactions[transId], voteFor)
  {
  }

  /** Once the checks pass, `Vote` is the settlement of the store with the vote written. */
  lemma VoteChecked(st: Store, h: VoteHasher, sender: UInt160, token: UInt160, transId: Bytes, voteFor: bool)
    requires transId in st.transactions
    requires IsMemberOfOrg(st, st.transactions[transId].orgId, sender) == Ok(true)
    requires sender != st.transactions[transId].user && h(transId, sender) !in st.votes
    ensures Operations.Vote(st, h, sender, token, transId, voteFor)
         == Settle(RecordVote(st, transId, h(transId, sender), Ballot(sender, token, transId, voteFor)), sender, transId, st.transactions[transId], voteFor)
  {
  }

  /** Settling succeeds when the organisation is stored, the tally does not fault, the proposal
      is no rule change (which only the owner could resolve) and a NewMember proposal has its
      member. */
  lemma SettleSucceeds(recorded: Store, sender: UInt160, transId: Bytes, trans: ProposalTransaction, voteFor: bool)
    requires trans.orgId in recorded.orgs
    requires TallyVotes(recorded, transId).Ok?
    requires trans.proposalType != OrgRules
    requires trans.proposalType == NewMember ==> transId in recorded.members
    ensures Settle(recorded, sender, transId, trans, voteFor).Ok?
  {
  }

  /** Settling writes no vote and no index entry; it ends with the recorded store itself unless the
      vote is "for" an Undecided proposal whose "for" votes reach the threshold, in which case it
      ends with the resolution. */
  lemma SettleCases(recorded: Store, sender: UInt160, transId: Bytes, trans: ProposalTransaction, voteFor: bool)
    requires Settle(recorded, sender, transId, trans, voteFor).Ok?
    ensures trans.orgId in recorded.orgs
    ensures var st' := Settle(recorded, sender, transId, trans, voteFor).value;
      && st'.votes == recorded.votes && st'.transVotes == recorded.transVotes
      && if voteFor && trans.decision == Undecided && |ForVotes(recorded, transId)| >= recorded.orgs[trans.orgId].voteForRequired
         then Settle(recorded, sender, transId, trans, voteFor) == Resolve(recorded, sender, transId, trans)
         else st' == recorded
  {
    if voteFor && trans.decision == Undecided {
      var tally := TallyVotes(recorded, transId);
      if tally.value.votesFor >= recorded.orgs[trans.orgId].voteForRequired {
        ResolveWrites(recorded, sender, transId, trans);
      }
    }
  }

  /** `Vote` fails on a missing proposal; a success needs a sender who passes `IsMemberOfOrg`, is
      not the proposer and whose vote id on this proposal is free, and records exactly one vote
      and one index entry. */
  lemma VoteRules(st: Store, h: VoteHasher, sender: UInt160, token: UInt160, transId: Bytes, voteFor: bool)
    ensures var r := Operations.Vote(st, h, sender, token, transId, voteFor);
      && (transId !in st.transactions ==> r == Err(TransactionNotFound))
      && (r.Ok? ==>
            && transId in st.transactions
            && IsMemberOfOrg(st, st.transactions[transId].orgId, sender) == Ok(true)
            && sender != st.transactions[transId].user
            && h(transId, sender) !in st.votes
            && st.transactions[transId].orgId in st.orgs
            && r.value.votes == st.votes[h(transId, sender) := Ballot(sender, token, transId, voteFor)]
            && r.value.transVotes == st.transVotes + {transId + h(transId, sender)})
  {
    if Operations.Vote(st, h, sender, token, transId, voteFor).Ok? {
      VoteOutcome(st, h, sender, token, transId, voteFor);
      var recorded := RecordVote(st, transId, h(transId, sender), Ballot(sender, token, transId, voteFor));
      SettleCases(recorded, sender, transId, st.transactions[transId], voteFor);
    }
  }

  /** A resolution writes the proposal's decision and no other proposal, and neither votes nor
      their index. */
  lemma ResolveWrites(st: Store, sender: UInt160, transId: Bytes, trans: ProposalTransaction)
    ensures var r := Resolve(st, sender, transId, trans);
      r.Ok? ==>
        && r.value.votes == st.votes && r.value.transVotes == st.transVotes
        && r.value.transactions == st.transactions[transId := trans.(decision := DecisionStatus.Approved)]
  {
  }

  /** Passing `IsMemberOfOrg` requires the organisation's record, which is read while listing the
      member's organisations; so the "Cannot find the orgId" check of `Vote`, made after the
      membership check, never fails. */
  lemma MembershipNeedsOrg(st: Store, orgId: Bytes, user: UInt160)
    requires IsMemberOfOrg(st, orgId, user) == Ok(true)
    ensures orgId in st.orgs
  {
    var m :| IsMember(st, user) == Ok(Some(m)) && OrgsOfMember(st, m).Ok? && m + orgId in st.memberOrgs;
  }

  /** A vote against, or a vote on a proposal that is no longer Undecided, records the vote and
      changes nothing else: an Approved proposal is never resolved a second time. */
  lemma VoteWithoutResolution(st: Store, h: VoteHasher, sender: UInt160, token: UInt160, transId: Bytes, voteFor: bool)
    requires Operations.Vote(st, h, sender, token, transId, voteFor).Ok?
    requires !voteFor || st.transactions[transId].decision != Undecided
    ensures Operations.Vote(st, h, sender, token, transId, voteFor).value
         == RecordVote(st, transId, h(transId, sender), Ballot(sender, token, transId, voteFor))
  {
    VoteOutcome(st, h, sender, token, transId, voteFor);
  }

  /** The "for" votes under a proposal depend only on the votes and their index. */
  lemma ForVotesOfSameVotes(a: Store, b: Store, transId: Bytes)
    requires a.votes == b.votes && a.transVotes == b.transVotes
    ensures ForVotes(a, transId) == ForVotes(b, transId)
  {
  }

  /** After a successful vote the proposal is Approved exactly when it already was, or it was
      Undecided, this vote is "for", and the "for" votes indexed under it reach the organisation's
      threshold. No vote ever makes it Rejected. */
  lemma VoteDecision(st: Store, h: VoteHasher, sender: UInt160, token: UInt160, transId: Bytes, voteFor: bool)
    requires Operations.Vote(st, h, sender, token, transId, voteFor).Ok?
    ensures var st' := Operations.Vote(st, h, sender, token, transId, voteFor).value;
      var trans := st.transactions[transId];
      && transId in st'.transactions
      && (st'.transactions[transId].decision == DecisionStatus.Approved <==>
            || trans.decision == DecisionStatus.Approved
            || (trans.decision == Undecided && voteFor && |ForVotes(st', transId)| >= st.orgs[trans.orgId].voteForRequired))
      && (st'.transactions[transId].decision != DecisionStatus.Approved ==> st'.transactions[transId] == trans)
  {
    VoteOutcome(st, h, sender, token, transId, voteFor);
    var trans := st.transactions[transId];
    var recorded := RecordVote(st, transId, h(transId, sender), Ballot(sender, token, transId, voteFor));
    SettleCases(recorded, sender, transId, trans, voteFor);
    var st' := Operations.Vote(st, h, sender, token, transId, voteFor).value;
    ForVotesOfSameVotes(st', recorded, transId);
    if voteFor && trans.decision == Undecided && |ForVotes(recorded, transId)| >= recorded.orgs[trans.orgId].voteForRequired {
      ResolveWrites(recorded, sender, transId, trans);
    }
  }

  /** The side effects of a resolution, by proposal kind: a NewMember proposal approves the member
      whose id it shares, adds it to Member_Orgs and raises MemberCount by one; an OrgRules
      proposal can only succeed when the voter is the owner, and sets the threshold to its total;
      a Pay proposal changes nothing beyond its own decision. */
  lemma VoteResolution(st: Store, h: VoteHasher, sender: UInt160, token: UInt160, transId: Bytes, voteFor: bool)
    requires Operations.Vote(st, h, sender, token, transId, voteFor).Ok?
    requires st.transactions[transId].decision == Undecided
    requires Operations.Vote(st, h, sender, token, transId, voteFor).value.transactions[transId].decision == DecisionStatus.Approved
    ensures var st' := Operations.Vote(st, h, sender, token, transId, voteFor).value;
      var trans := st.transactions[transId];
      var recorded := RecordVote(st, transId, h(transId, sender), Ballot(sender, token, transId, voteFor));
      var decided := recorded.(transactions := st.transactions[transId := trans.(decision := DecisionStatus.Approved)]);
      match trans.proposalType
      case NewMember =>
        && transId in st.members
        && st' == decided.(members := st.members[transId := st.members[transId].(decision := DecisionStatus.Approved)],
                           memberOrgs := st.memberOrgs + {transId + trans.orgId},
                           orgs := st.orgs[trans.orgId := st.orgs[trans.orgId].(memberCount := st.orgs[trans.orgId].memberCount + 1)])
      case OrgRules =>
        && st.owner == Some(sender)
        && 0 <= trans.total < 0x1_0000
        && st' == decided.(orgs := st.orgs[trans.orgId := st.orgs[trans.orgId].(voteForRequired := trans.total)])
      case Pay => st' == decided
  {
    VoteOutcome(st, h, sender, token, transId, voteFor);
    var trans := st.transactions[transId];
    var recorded := RecordVote(st, transId, h(transId, sender), Ballot(sender, token, transId, voteFor));
    SettleCases(recorded, sender, transId, trans, voteFor);
  }

  /** A "for" vote that brings an Undecided rule-change proposal to its threshold fails as a whole
      unless the voter is the contract owner. */
  lemma RuleChangeNeedsOwner(st: Store, h: VoteHasher, sender: UInt160, token: UInt160, transId: Bytes)
    requires transId in st.transactions
    requires st.transactions[transId].proposalType == OrgRules && st.transactions[transId].decision == Undecided
    requires st.transactions[transId].orgId in st.orgs
    requires |ForVotes(RecordVote(st, transId, h(transId, sender), Ballot(sender, token, transId, true)), transId)|
             >= st.orgs[st.transactions[transId].orgId].voteForRequired
    requires st.owner != Some(sender)
    ensures Operations.Vote(st, h, sender, token, transId, true).Err?
  {
    var trans := st.transactions[transId];
    if IsMemberOfOrg(st, trans.orgId, sender) == Ok(true) && sender != trans.user && h(transId, sender) !in st.votes {
      VoteChecked(st, h, sender, token, transId, true);
      SettleRuleChange(RecordVote(st, transId, h(transId, sender), Ballot(sender, token, transId, true)), sender, transId, trans);
    }
  }

  /** Settling a "for" vote that brings an Undecided rule change to its threshold fails unless
      the voter is the owner. */
  lemma SettleRuleChange(recorded: Store, sender: UInt160, transId: Bytes, trans: ProposalTransaction)
    requires trans.proposalType == OrgRules && trans.decision == Undecided
    requires trans.orgId in recorded.orgs
    requires |ForVotes(recorded, transId)| >= recorded.orgs[trans.orgId].voteForRequired
    requires recorded.owner != Some(sender)
    ensures Settle(recorded, sender, transId, trans, true).Err?
  {
  }
}
