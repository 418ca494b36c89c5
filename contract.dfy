/** DAOCakeContract.cs as a class over its storage: one field per storage map, methods that make
    the contract's `Put` calls in the contract's order, and a revert that discards them when the
    invocation throws part-way. Each method is proved to end in the store and error that the
    matching function of module Operations gives; the facts proved about those functions
    (modules Rules, Invariants and Traces) thereby hold of the class. */
module Contract {
  import opened Keys
  import opened Work
  import opened Ledger
  import opened Queries
  import Operations
  import opened Invariants

  class DAOCakeContract {
    var orgs: map<Bytes, Organisation>
    var members: map<Bytes, Member>
    var transactions: map<Bytes, ProposalTransaction>
    var votes: map<Bytes, Vote>
    var orgMembers: set<Bytes>
    var memberOrgs: set<Bytes>
    var userMemberLookup: set<Bytes>
    var orgTransactions: set<Bytes>
    var transVotes: set<Bytes>
    var owner: Option<UInt160>
    /** `Sha256(Serialize([transId, user]))`, the identifier of a vote. */
    const voteHash: VoteHasher

    /** The contents of storage. */
    function State(): Store
      reads this
    {
      Store(orgs, members, transactions, votes, orgMembers, memberOrgs, userMemberLookup,
            orgTransactions, transVotes, owner)
    }

    ghost predicate Valid()
      reads this
    {
      Consistent(State(), voteHash)
    }

    /** A contract whose storage is still empty. */
    constructor (voteHash: VoteHasher)
      ensures State() == EmptyStore && this.voteHash == voteHash
      ensures Valid()
    {
      this.voteHash := voteHash;
      orgs, members, transactions, votes := map[], map[], map[], map[];
      orgMembers, memberOrgs, userMemberLookup, orgTransactions, transVotes := {}, {}, {}, {}, {};
      owner := Option.None;
    }

    /** The runtime discarding every write of an invocation that throws. */
    method Revert(snapshot: Store)
      modifies this
      ensures State() == snapshot
    {
      orgs, members, transactions, votes := snapshot.orgs, snapshot.members, snapshot.transactions, snapshot.votes;
      orgMembers, memberOrgs, userMemberLookup := snapshot.orgMembers, snapshot.memberOrgs, snapshot.userMemberLookup;
      orgTransactions, transVotes, owner := snapshot.orgTransactions, snapshot.transVotes, snapshot.owner;
    }

    /** `_deploy(data, update)`. */
    method Deploy(sender: UInt160, update: bool)
      modifies this
      ensures State() == Operations.Deploy(old(State()), sender, update)
      ensures old(Valid()) ==> Valid()
    {
      if !update {
        owner := Some(sender);
      }
    }

    method CreateOrganisation(name: string, user: UInt160, creatorName: string, orgId: Option<Bytes>,
                              memberId: Option<Bytes>, orgHash: Hash32, memberHash: Hash32)
      returns (err: Option<Error>)
      modifies this
      ensures err == ErrorOf(Operations.CreateOrganisation(old(State()), name, user, creatorName, orgId, memberId, orgHash, memberHash))
      ensures State() == After(old(State()), Operations.CreateOrganisation(old(State()), name, user, creatorName, orgId, memberId, orgHash, memberHash))
      ensures old(Valid()) ==> Valid()
    {
      ghost var st := State();
      var oid := orgHash;
      if orgId.Some? {
        if |orgId.value| != 16 {
          return Some(IdLengthInvalid);
        }
        oid := orgId.value;
      }
      if oid in orgs {
        return Some(OrgExists);
      }
      var snapshot := State();
      orgs := orgs[oid := Organisation(name := name, orgId := oid, creatorUser := user)];
      var mid := memberHash;
      if memberId.Some? {
        if |memberId.value| != 16 {
          // the organisation was already written
          assert Operations.CreateOrganisation(st, name, user, creatorName, orgId, memberId, orgHash, memberHash) == Err(IdLengthInvalid);
          Revert(snapshot);
          return Some(IdLengthInvalid);
        }
        mid := memberId.value;
      }
      members := members[mid := Member(name := creatorName, user := user, decision := DecisionStatus.Approved)];
      orgMembers := orgMembers + {oid + mid};
      memberOrgs := memberOrgs + {mid + oid};
      userMemberLookup := userMemberLookup + {user + mid};
      assert State() == Operations.CreateOrganisation(st, name, user, creatorName, orgId, memberId, orgHash, memberHash).value;
      err := Option.None;
      if Consistent(st, voteHash) {
        CreateOrganisationKeeps(st, voteHash, name, user, creatorName, orgId, memberId, orgHash, memberHash);
      }
    }

    method UpdateMemberVoteRules(sender: UInt160, orgId: Bytes, voteForRequired: U16) returns (err: Option<Error>)
      modifies this
      ensures err == ErrorOf(Operations.UpdateMemberVoteRules(old(State()), sender, orgId, voteForRequired))
      ensures State() == After(old(State()), Operations.UpdateMemberVoteRules(old(State()), sender, orgId, voteForRequired))
      ensures old(Valid()) ==> Valid()
    {
      ghost var st := State();
      if owner != Some(sender) {
        return Some(NotOwner);
      }
      if orgId !in orgs {
        return Some(OrgNotFound);
      }
      orgs := orgs[orgId := orgs[orgId].(voteForRequired := voteForRequired)];
      err := Option.None;
      if Consistent(st, voteHash) {
        UpdateMemberVoteRulesKeeps(st, voteHash, sender, orgId, voteForRequired);
      }
    }

    method UpdateMemberAsApproved(orgId: Bytes, memberId: Bytes) returns (err: Option<Error>)
      modifies this
      ensures err == ErrorOf(Operations.UpdateMemberAsApproved(old(State()), orgId, memberId))
      ensures State() == After(old(State()), Operations.UpdateMemberAsApproved(old(State()), orgId, memberId))
      ensures old(Valid()) ==> Valid()
    {
      ghost var st := State();
      var member := GetMemberObj(State(), memberId);
      if member.Err? {
        return Some(member.error);
      }
      var snapshot := State();
      members := members[memberId := member.value.(decision := DecisionStatus.Approved)];
      memberOrgs := memberOrgs + {memberId + orgId};
      if orgId !in orgs {
        // deserialising the missing organisation faults after two writes
        Revert(snapshot);
        return Some(RecordMissing);
      }
      var org := orgs[orgId];
      orgs := orgs[orgId := org.(memberCount := org.memberCount + 1)];
      err := Option.None;
      if Consistent(st, voteHash) {
        UpdateMemberAsApprovedKeeps(st, voteHash, orgId, memberId);
      }
    }

    method AddMemberOfOrg(sender: UInt160, orgId: Bytes, myName: string, memberId: Option<Bytes>, memberHash: Hash32)
      returns (err: Option<Error>)
      modifies this
      ensures err == ErrorOf(Operations.AddMemberOfOrg(old(State()), sender, orgId, myName, memberId, memberHash))
      ensures State() == After(old(State()), Operations.AddMemberOfOrg(old(State()), sender, orgId, myName, memberId, memberHash))
      ensures old(Valid()) ==> Valid()
    {
      ghost var st := State();
      if orgId !in orgs {
        return Some(OrgNotFound);
      }
      var mid := memberHash;
      if memberId.Some? {
        if |memberId.value| != 16 {
          return Some(IdLengthInvalid);
        }
        mid := memberId.value;
      }
      members := members[mid := Member(name := myName, user := sender)];
      orgMembers := orgMembers + {orgId + mid};
      userMemberLookup := userMemberLookup + {sender + mid};
      // the proposal to admit the member shares its id
      transactions := transactions[mid := ProposalTransaction(orgId := orgId, user := sender, refNo := myName, proposalType := NewMember)];
      orgTransactions := orgTransactions + {orgId + mid};
      err := Option.None;
      if Consistent(st, voteHash) {
        AddMemberOfOrgKeeps(st, voteHash, sender, orgId, myName, memberId, memberHash);
      }
    }

    method CreateTransaction(orgId: Bytes, userId: UInt160, amount: int, evidenceCid: string, refNo: string,
                             transId: Option<Bytes>, transHash: Hash32, token: UInt160)
      returns (err: Option<Error>)
      modifies this
      ensures err == ErrorOf(Operations.CreateTransaction(old(State()), orgId, userId, amount, evidenceCid, refNo, transId, transHash, token))
      ensures State() == After(old(State()), Operations.CreateTransaction(old(State()), orgId, userId, amount, evidenceCid, refNo, transId, transHash, token))
      ensures old(Valid()) ==> Valid()
    {
      ghost var st := State();
      var isMember := IsMemberOfOrg(orgId, userId);
      if isMember.Err? {
        return Some(isMember.error);
      }
      if !isMember.value {
        return Some(NotApprovedMember);
      }
      if orgId !in orgs {
        return Some(OrgNotFound);
      }
      var tid := transHash;
      if transId.Some? {
        if |transId.value| != 16 {
          return Some(IdLengthInvalid);
        }
        tid := transId.value;
      }
      if tid in transactions {
        return Some(TransactionExists);
      }
      transactions := transactions[tid := ProposalTransaction(orgId := orgId, user := userId, evidenceCid := evidenceCid,
                                                              refNo := refNo, total := amount, token := token)];
      orgTransactions := orgTransactions + {orgId + tid};
      err := Option.None;
      if Consistent(st, voteHash) {
        CreateTransactionKeeps(st, voteHash, orgId, userId, amount, evidenceCid, refNo, transId, transHash, token);
      }
    }

    method Vote(sender: UInt160, token: UInt160, transId: Bytes, voteFor: bool) returns (err: Option<Error>)
      modifies this
      ensures err == ErrorOf(Operations.Vote(old(State()), voteHash, sender, token, transId, voteFor))
      ensures State() == After(old(State()), Operations.Vote(old(State()), voteHash, sender, token, transId, voteFor))
      ensures old(Valid()) ==> Valid()
    {
      ghost var st := State();
      if transId !in transactions {
        return Some(TransactionNotFound);
      }
      var trans := transactions[transId];
      var isMember := IsMemberOfOrg(trans.orgId, sender);
      if isMember.Err? {
        return Some(isMember.error);
      }
      if !isMember.value {
        return Some(NotApprovedMember);
      }
      if sender == trans.user {
        return Some(OwnProposal);
      }
      var voteId := voteHash(transId, sender);
      if voteId in votes {
        return Some(AlreadyVoted);
      }
      var snapshot := State();
      votes := votes[voteId := Work.Vote(user := sender, transId := transId, voteFor := voteFor, token := token)];
      transVotes := transVotes + {transId + voteId};
      assert State() == Operations.RecordVote(st, transId, voteId, Work.Vote(user := sender, transId := transId, voteFor := voteFor, token := token));
      err := Settle(snapshot, sender, transId, trans, voteFor);
      if Consistent(st, voteHash) {
        VoteKeeps(st, voteHash, sender, token, transId, voteFor);
      }
    }

    /** The rest of `Vote` once the vote is written: the organisation is read, and a "for" vote on
        an Undecided proposal is tallied and resolves the proposal at the threshold. A failure
        reverts to `snapshot`, the store before the vote was written. */
    method Settle(snapshot: Store, sender: UInt160, transId: Bytes, trans: ProposalTransaction, voteFor: bool)
      returns (err: Option<Error>)
      modifies this
      ensures err == ErrorOf(Operations.Settle(old(State()), sender, transId, trans, voteFor))
      ensures var r := Operations.Settle(old(State()), sender, transId, trans, voteFor);
        State() == if r.Ok? then r.value else snapshot
    {
      if trans.orgId !in orgs {
        Revert(snapshot);
        return Some(OrgNotFound);
      }
      var org := orgs[trans.orgId];
      if voteFor && trans.decision == Undecided {
        var tally := TallyVotes(transId);
        if tally.Err? {
          Revert(snapshot);
          return Some(tally.error);
        }
        if tally.value.votesFor >= org.voteForRequired {
          // resolution: the proposal is approved, then its kind decides what follows
          transactions := transactions[transId := trans.(decision := DecisionStatus.Approved)];
          match trans.proposalType {
            case NewMember =>
              err := UpdateMemberAsApproved(trans.orgId, transId);
              if err.Some? {
                Revert(snapshot);
                return;
              }
            case OrgRules =>
              if !(0 <= trans.total < 0x1_0000) {
                Revert(snapshot);
                return Some(TotalOutOfRange);
              }
              err := UpdateMemberVoteRules(sender, trans.orgId, trans.total);
              if err.Some? {
                Revert(snapshot);
                return;
              }
            case Pay =>
          }
        }
      }
      err := Option.None;
    }

    /** The "for" votes among `ids`. */
    ghost function ForAmong(ids: set<Bytes>): set<Bytes>
      reads this
    {
      set v | v in ids && v in votes && votes[v].voteFor
    }

    /** The tally of `Vote`: the votes indexed under the proposal, counted by `CountVotes`. */
    method TallyVotes(transId: Bytes) returns (r: Result<Tally>)
      ensures r == Queries.TallyVotes(State(), transId)
      ensures Valid() && (forall t :: t in transactions ==> |t| == |transId|) ==> r.Ok?
    {
      var ids := Find(transVotes, transId);
      r := CountVotes(ids);
      assert ForAmong(ids) == ForVotes(State(), transId);
      if Valid() && (forall t :: t in transactions ==> |t| == |transId|) {
        TallyDefined(State(), voteHash, transId);
      }
    }

    /** The tally loop of `Vote`: reads the vote of every id, counting all of them and, separately,
        those for the proposal; a missing vote faults the read. */
    method CountVotes(ids: set<Bytes>) returns (r: Result<Tally>)
      ensures r.Ok? <==> ids <= votes.Keys
      ensures r.Err? ==> r.error == RecordMissing
      ensures r.Ok? ==> r.value == Tally(|ids|, |ForAmong(ids)|)
    {
      var remaining := ids;
      ghost var visited: set<Bytes> := {};
      var count, countFor := 0, 0;
      while remaining != {}
        invariant visited + remaining == ids && visited !! remaining
        invariant visited <= votes.Keys
        invariant count == |visited|
        invariant countFor == |ForAmong(visited)|
        decreases |remaining|
      {
        var vId :| vId in remaining;
        if vId !in votes {
          return Err(RecordMissing);
        }
        count := count + 1;
        if votes[vId].voteFor {
          assert ForAmong(visited + {vId}) == ForAmong(visited) + {vId};
          countFor := countFor + 1;
        } else {
          assert ForAmong(visited + {vId}) == ForAmong(visited);
        }
        visited := visited + {vId};
        remaining := remaining - {vId};
      }
      return Ok(Tally(count, countFor));
    }

    /** `IsMember(user, status)`: walks the user's lookup entries in storage order, reading each
        member and keeping the id of the last one. */
    method IsMember(user: UInt160) returns (r: Result<Option<Bytes>>)
      ensures r == Queries.IsMember(State(), user)
      ensures Valid() ==> r.Ok?
    {
      var ids := Find(userMemberLookup, user);
      var remaining := ids;
      var memberId: Option<Bytes> := Option.None;
      while remaining != {}
        invariant remaining <= ids
        invariant forall m :: m in ids - remaining ==> m in members
        invariant memberId.None? <==> remaining == ids
        invariant memberId.Some? ==> IsGreatest(ids - remaining, memberId.value)
        invariant forall a, b :: a in ids - remaining && b in remaining ==> Below(a, b)
        decreases |remaining|
      {
        LeastExists(remaining);
        var mId :| IsLeast(remaining, mId);
        if mId !in members {
          return Err(RecordMissing);
        }
        memberId := Some(mId);
        remaining := remaining - {mId};
      }
      if memberId.Some? {
        GreatestUnique(ids, memberId.value, Greatest(ids));
      }
      if Valid() {
        IsMemberDefined(State(), voteHash, user);
      }
      return Ok(memberId);
    }

    /** `IsMemberOfOrg(orgId, user, status)`. */
    method IsMemberOfOrg(orgId: Bytes, user: UInt160) returns (r: Result<bool>)
      ensures r == Queries.IsMemberOfOrg(State(), orgId, user)
    {
      var found := IsMember(user);
      if found.Err? {
        return Err(found.error);
      }
      if found.value.None? {
        return Ok(false);
      }
      var orgsOfMember := OrgsOfMember(State(), found.value.value);
      if orgsOfMember.Err? {
        return Err(orgsOfMember.error);
      }
      return Ok(orgId in orgsOfMember.value);
    }
  }
}
