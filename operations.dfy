/** The state-changing operations of DAOCakeContract.cs, each as a function from the store before
    the invocation to its outcome: the store after it, or the error it throws (and with it the
    loss of every write it made). Caller identities (`Tx.Sender`, `Runtime.CallingScriptHash`)
    and the hashes the contract would compute for generated identifiers are parameters. */
module Operations {
  import opened Keys
  import opened Work
  import opened Ledger
  import opened Queries

  /** The identifier an operation uses: an explicit one must be 16 bytes long; without one the
      contract hashes the context and `Runtime.GetRandom()` with SHA-256 (`generated`). */
  function ResolveId(given: Option<Bytes>, generated: Hash32): (r: Result<Bytes>)
    ensures r.Ok? <==> given.None? || |given.value| == 16
    ensures r.Ok? ==> |r.value| == 16 || |r.value| == 32
    ensures given.None? ==> r.Ok? && r.value == generated
    ensures r.Ok? && given.Some? ==> r.value == given.value
  {
    if given.None? then Ok(generated)
    else if |given.value| != 16 then Err(IdLengthInvalid)
    else Ok(given.value)
  }

  /** `_deploy(data, update)`: a first deployment records the deployer as `Owner`. */
  function Deploy(st: Store, sender: UInt160, update: bool): Store
  {
    if update then st else st.(owner := Some(sender))
  }

  /** `CreateOrganisation(name, user, creatorName, orgId, memberId)`. */
  function CreateOrganisation(st: Store, name: string, user: UInt160, creatorName: string,
                              orgId: Option<Bytes>, memberId: Option<Bytes>,
                              orgHash: Hash32, memberHash: Hash32): Result<Store>
  {
    match ResolveId(orgId, orgHash)
    case Err(e) => Err(e)
    case Ok(oid) =>
      if oid in st.orgs then Err(OrgExists)
      else
        match ResolveId(memberId, memberHash)
        case Err(e) => Err(e)
        case Ok(mid) =>
          Ok(st.(orgs := st.orgs[oid := Organisation(name := name, orgId := oid, creatorUser := user)],
                 members := st.members[mid := Member(name := creatorName, user := user, decision := DecisionStatus.Approved)],
                 orgMembers := st.orgMembers + {oid + mid},
                 memberOrgs := st.memberOrgs + {mid + oid},
                 userMemberLookup := st.userMemberLookup + {user + mid}))
  }

  /** `UpdateMemberVoteRules(orgId, voteForRequired)`: only the owner may change the threshold. */
  function UpdateMemberVoteRules(st: Store, sender: UInt160, orgId: Bytes, voteForRequired: U16): Result<Store>
  {
    if st.owner != Some(sender) then Err(NotOwner)
    else if orgId !in st.orgs then Err(OrgNotFound)
    else Ok(st.(orgs := st.orgs[orgId := st.orgs[orgId].(voteForRequired := voteForRequired)]))
  }

  /** `UpdateMemberAsApproved(orgId, transMemberId)`. It is a public entry point with no check on
      its caller. */
  function UpdateMemberAsApproved(st: Store, orgId: Bytes, memberId: Bytes): Result<Store>
  {
    if memberId !in st.members then Err(MemberNotFound)
    else if orgId !in st.orgs then Err(RecordMissing)
    else
      var org := st.orgs[orgId];
      Ok(st.(members := st.members[memberId := st.members[memberId].(decision := DecisionStatus.Approved)],
             memberOrgs := st.memberOrgs + {memberId + orgId},
             orgs := st.orgs[orgId := org.(memberCount := org.memberCount + 1)]))
  }

  /** `AddMemberOfOrg(orgId, myName, memberId)`, called by the prospective member `sender`. */
  function AddMemberOfOrg(st: Store, sender: UInt160, orgId: Bytes, myName: string,
                          memberId: Option<Bytes>, memberHash: Hash32): Result<Store>
  {
    if orgId !in st.orgs then Err(OrgNotFound)
    else
      match ResolveId(memberId, memberHash)
      case Err(e) => Err(e)
      case Ok(mid) =>
        Ok(st.(members := st.members[mid := Member(name := myName, user := sender)],
               orgMembers := st.orgMembers + {orgId + mid},
               userMemberLookup := st.userMemberLookup + {sender + mid},
               transactions := st.transactions[mid := ProposalTransaction(orgId := orgId, user := sender, refNo := myName, proposalType := NewMember)],
               orgTransactions := st.orgTransactions + {orgId + mid}))
  }

  /** `CreateTransaction(orgId, userId, amount, evidenceCID, refNo, transId)`, with `token` the
      calling script hash. The proposal keeps the default kind, Pay. */
  ghost function CreateTransaction(st: Store, orgId: Bytes, userId: UInt160, amount: int,
                                   evidenceCid: string, refNo: string, transId: Option<Bytes>,
                                   transHash: Hash32, token: UInt160): Result<Store>
  {
    match IsMemberOfOrg(st, orgId, userId)
    case Err(e) => Err(e)
    case Ok(isMember) =>
      if !isMember then Err(NotApprovedMember)
      else if orgId !in st.orgs then Err(OrgNotFound)
      else
        match ResolveId(transId, transHash)
        case Err(e) => Err(e)
        case Ok(tid) =>
          if tid in st.transactions then Err(TransactionExists)
          else
            Ok(st.(transactions := st.transactions[tid := ProposalTransaction(orgId := orgId, user := userId, evidenceCid := evidenceCid, refNo := refNo, total := amount, token := token)],
                   orgTransactions := st.orgTransactions + {orgId + tid}))
  }

  /** The two writes of `Vote` at DAOCakeContract.cs:343-344. */
  function RecordVote(st: Store, transId: Bytes, voteId: Bytes, vote: Vote): Store
  {
    st.(votes := st.votes[voteId := vote], transVotes := st.transVotes + {transId + voteId})
  }

  /** Resolution of a proposal whose "for" votes reached the threshold (DAOCakeContract.cs:378-392):
      it becomes Approved, then its kind decides what else happens. */
  function Resolve(st: Store, sender: UInt160, transId: Bytes, trans: ProposalTransaction): Result<Store>
  {
    var decided := st.(transactions := st.transactions[transId := trans.(decision := DecisionStatus.Approved)]);
    match trans.proposalType
    case NewMember => UpdateMemberAsApproved(decided, trans.orgId, transId)
    case OrgRules =>
      if 0 <= trans.total < 0x1_0000 then UpdateMemberVoteRules(decided, sender, trans.orgId, trans.total)
      else Err(TotalOutOfRange)
    case Pay => Ok(decided)
  }

  /** What `Vote` does once the vote is recorded (DAOCakeContract.cs:346-392): the organisation is
      read, and a "for" vote on an Undecided proposal tallies the proposal's votes and resolves it
      when the "for" votes reach the threshold. */
  function Settle(recorded: Store, sender: UInt160, transId: Bytes, trans: ProposalTransaction, voteFor: bool): Result<Store>
  {
    if trans.orgId !in recorded.orgs then Err(OrgNotFound)
    else if !voteFor || trans.decision != Undecided then Ok(recorded)
    else
      match TallyVotes(recorded, transId)
      case Err(e) => Err(e)
      case Ok(tally) =>
        if tally.votesFor < recorded.orgs[trans.orgId].voteForRequired then Ok(recorded)
        else Resolve(recorded, sender, transId, trans)
  }

  /** `Vote(transId, voteFor)` by `sender`, with `token` the calling script hash. */
  ghost function Vote(st: Store, h: VoteHasher, sender: UInt160, token: UInt160, transId: Bytes, voteFor: bool): Result<Store>
  {
    if transId !in st.transactions then Err(TransactionNotFound)
    else
      var trans := st.transactions[transId];
      match IsMemberOfOrg(st, trans.orgId, sender)
      case Err(e) => Err(e)
      case Ok(isMember) =>
        if !isMember then Err(NotApprovedMember)
        else if sender == trans.user then Err(OwnProposal)
        else
          var voteId := h(transId, sender);
          if voteId in st.votes then Err(AlreadyVoted)
          else
            var vote := Work.Vote(user := sender, transId := transId, voteFor := voteFor, token := token);
            Settle(RecordVote(st, transId, voteId, vote), sender, transId, trans, voteFor)
  }
}
