/** Facts that hold of every store the contract can reach, and how each operation moves between
    such stores: records and indexes are written together, votes are written once and never
    changed, and every vote sits at the identifier `Sha256(Serialize([transId, user]))`. */
module Invariants {
  import opened Keys
  import opened Work
  import opened Ledger
  import opened Queries
  import opened Operations
  import Rules

  /** No other (proposal, account) pair shares the vote id of `transId` and `user`. A hash into
      32-byte values cannot be injective on all pairs, but it can be collision-free at one. */
  ghost predicate NoCollisionAt(h: VoteHasher, transId: Bytes, user: UInt160)
  {
    forall t, u :: h(t, u) == h(transId, user) ==> t == transId && u == user
  }

  /** Each vote is stored under the hash of its own proposal and account. */
  ghost predicate VotesKeyed(st: Store, h: VoteHasher)
  {
    forall k :: k in st.votes ==> k == h(st.votes[k].transId, st.votes[k].user)
  }

  /** Each vote is on a stored proposal and indexed under it; each Trans_Votes entry is the entry
      of a stored vote. */
  ghost predicate VotesIndexed(st: Store)
  {
    && (forall k :: k in st.votes ==> st.votes[k].transId in st.transactions && st.votes[k].transId + k in st.transVotes)
    && (forall e :: e in st.transVotes ==> exists k :: k in st.votes && e == st.votes[k].transId + k)
  }

  /** Each proposal belongs to a stored organisation, is never Rejected, and is never a rule
      change. */
  ghost predicate ProposalsWellFormed(st: Store)
  {
    forall t :: t in st.transactions ==>
      && st.transactions[t].orgId in st.orgs
      && st.transactions[t].decision != Rejected
      && st.transactions[t].proposalType != OrgRules
  }

  /** An index entry `a + b` whose two halves are the keys of stored records. */
  ghost predicate Joins<A, B>(e: Bytes, left: map<Bytes, A>, right: map<Bytes, B>)
  {
    exists a, b :: a in left && b in right && e == a + b
  }

  /** Each Org_Members, Member_Orgs and Org_Transactions entry joins two stored records, and each
      User_Member_Lookup entry is an account followed by a stored member id. */
  ghost predicate IndexesLinked(st: Store)
  {
    && (forall e :: e in st.orgMembers ==> Joins(e, st.orgs, st.members))
    && (forall e :: e in st.memberOrgs ==> Joins(e, st.members, st.orgs))
    && (forall e :: e in st.orgTransactions ==> Joins(e, st.orgs, st.transactions))
    && (forall e :: e in st.userMemberLookup ==> exists u: UInt160, m :: m in st.members && e == u + m)
  }

  /** The converse direction for the records: each proposal is indexed under its organisation,
      each member under its account, and each NewMember proposal shares its id with a stored
      member. */
  ghost predicate RecordsIndexed(st: Store)
  {
    && (forall t :: t in st.transactions ==>
          && st.transactions[t].orgId + t in st.orgTransactions
          && (st.transactions[t].proposalType == NewMember ==> t in st.members))
    && (forall m :: m in st.members ==> st.members[m].user + m in st.userMemberLookup)
  }

  ghost predicate Consistent(st: Store, h: VoteHasher)
  {
    VotesKeyed(st, h) && VotesIndexed(st) && ProposalsWellFormed(st) && IndexesLinked(st)
  }

  /** `st'` keeps everything `st` has: no record or index entry disappears and no vote changes. */
  ghost predicate Extends(st: Store, st': Store)
  {
    && st.orgs.Keys <= st'.orgs.Keys
    && st.members.Keys <= st'.members.Keys
    && st.transactions.Keys <= st'.transactions.Keys
    && (forall k :: k in st.votes ==> k in st'.votes && st'.votes[k] == st.votes[k])
    && st.orgMembers <= st'.orgMembers
    && st.memberOrgs <= st'.memberOrgs
    && st.userMemberLookup <= st'.userMemberLookup
    && st.orgTransactions <= st'.orgTransactions
    && st.transVotes <= st'.transVotes
    && st.owner == st'.owner
  }

  /** The store of a freshly deployed contract is consistent and has every record indexed. */
  lemma DeployConsistent(sender: UInt160, h: VoteHasher)
    ensures Consistent(Deploy(EmptyStore, sender, false), h) && RecordsIndexed(Deploy(EmptyStore, sender, false))
    ensures Deploy(EmptyStore, sender, false).owner == Some(sender)
  {
  }

  // ---------------------------------------------------------------------------------------------
  // Each operation keeps the store consistent, removes no record or index entry, changes no vote and keeps the owner.

  lemma CreateOrganisationKeeps(st: Store, h: VoteHasher, name: string, user: UInt160, creatorName: string,
                                orgId: Option<Bytes>, memberId: Option<Bytes>, orgHash: Hash32, memberHash: Hash32)
    requires Consistent(st, h)
    ensures var st' := After(st, CreateOrganisation(st, name, user, creatorName, orgId, memberId, orgHash, memberHash));
      Consistent(st', h) && Extends(st, st')
  {
    var r := CreateOrganisation(st, name, user, creatorName, orgId, memberId, orgHash, memberHash);
    if r.Ok? {
      assert r.value.votes == st.votes && r.value.transVotes == st.transVotes && r.value.transactions == st.transactions;
      assert st.orgs.Keys <= r.value.orgs.Keys;
    }
  }

  lemma AddMemberOfOrgKeeps(st: Store, h: VoteHasher, sender: UInt160, orgId: Bytes, myName: string,
                            memberId: Option<Bytes>, memberHash: Hash32)
    requires Consistent(st, h)
    ensures var st' := After(st, AddMemberOfOrg(st, sender, orgId, myName, memberId, memberHash));
      Consistent(st', h) && Extends(st, st')
  {
    var r := AddMemberOfOrg(st, sender, orgId, myName, memberId, memberHash);
    if r.Ok? {
      assert r.value.votes == st.votes && r.value.transVotes == st.transVotes && r.value.orgs == st.orgs;
      assert st.members.Keys <= r.value.members.Keys && st.transactions.Keys <= r.value.transactions.Keys;
    }
  }

  lemma CreateTransactionKeeps(st: Store, h: VoteHasher, orgId: Bytes, userId: UInt160, amount: int, evidenceCid: string,
                               refNo: string, transId: Option<Bytes>, transHash: Hash32, token: UInt160)
    requires Consistent(st, h)
    ensures var st' := After(st, CreateTransaction(st, orgId, userId, amount, evidenceCid, refNo, transId, transHash, token));
      Consistent(st', h) && Extends(st, st')
  {
    if CreateTransaction(st, orgId, userId, amount, evidenceCid, refNo, transId, transHash, token).Ok? {
      Rules.CreateTransactionEffects(st, orgId, userId, amount, evidenceCid, refNo, transId, transHash, token);
      ProposalAddedKeeps(st, h, orgId, Rules.IdOf(transId, transHash),
                         ProposalTransaction(orgId, userId, evidenceCid, refNo, amount, token, Undecided, Pay));
    }
  }

  /** Storing a fresh Undecided payment proposal of a stored organisation, indexed under it, keeps
      the store consistent. */
  lemma ProposalAddedKeeps(st: Store, h: VoteHasher, orgId: Bytes, tid: Bytes, p: ProposalTransaction)
    requires Consistent(st, h)
    requires orgId in st.orgs && tid !in st.transactions
    requires p.orgId == orgId && p.decision == Undecided && p.proposalType == Pay
    ensures var st' := st.(transactions := st.transactions[tid := p], orgTransactions := st.orgTransactions + {orgId + tid});
      Consistent(st', h) && Extends(st, st')
  {
  }

  lemma UpdateMemberVoteRulesKeeps(st: Store, h: VoteHasher, sender: UInt160, orgId: Bytes, voteForRequired: U16)
    requires Consistent(st, h)
    ensures var st' := After(st, UpdateMemberVoteRules(st, sender, orgId, voteForRequired));
      Consistent(st', h) && Extends(st, st')
  {
  }

  lemma UpdateMemberAsApprovedKeeps(st: Store, h: VoteHasher, orgId: Bytes, memberId: Bytes)
    requires Consistent(st, h)
    ensures var st' := After(st, UpdateMemberAsApproved(st, orgId, memberId));
      Consistent(st', h) && Extends(st, st')
  {
  }

  /** Recording a fresh vote on a stored proposal under its own hash keeps the vote invariants. */
  lemma RecordVoteKeeps(st: Store, h: VoteHasher, transId: Bytes, voteId: Bytes, vote: Vote)
    requires Consistent(st, h)
    requires voteId !in st.votes && voteId == h(vote.transId, vote.user)
    requires vote.transId == transId && transId in st.transactions
    ensures var st' := RecordVote(st, transId, voteId, vote);
      Consistent(st', h) && Extends(st, st')
  {
    var st' := RecordVote(st, transId, voteId, vote);
    RecordVoteIndexed(st, transId, voteId, vote);
    RecordVoteKeyed(st, h, transId, voteId, vote);
    RecordsUnchanged(st, st');
    RecordVoteExtends(st, transId, voteId, vote);
  }

  /** Writing a vote under a free id extends the store. */
  lemma RecordVoteExtends(st: Store, transId: Bytes, voteId: Bytes, vote: Vote)
    requires voteId !in st.votes
    ensures Extends(st, RecordVote(st, transId, voteId, vote))
  {
  }

  /** Writing a vote under the hash of its own proposal and account keeps every vote at its id. */
  lemma RecordVoteKeyed(st: Store, h: VoteHasher, transId: Bytes, voteId: Bytes, vote: Vote)
    requires VotesKeyed(st, h) && voteId == h(vote.transId, vote.user)
    ensures VotesKeyed(RecordVote(st, transId, voteId, vote), h)
  {
    var st' := RecordVote(st, transId, voteId, vote);
    forall k | k in st'.votes
      ensures k == h(st'.votes[k].transId, st'.votes[k].user)
    {
      if k != voteId {
        assert st'.votes[k] == st.votes[k];
      }
    }
  }

  /** A change confined to the votes and their index leaves the conditions on the other records
      and indexes as they were. */
  lemma RecordsUnchanged(st: Store, st': Store)
    requires st' == st.(votes := st'.votes, transVotes := st'.transVotes)
    ensures ProposalsWellFormed(st) ==> ProposalsWellFormed(st')
    ensures IndexesLinked(st) ==> IndexesLinked(st')
  {
  }

  /** Writing a vote on a stored proposal together with its index entry keeps votes and index
      matched. */
  lemma RecordVoteIndexed(st: Store, transId: Bytes, voteId: Bytes, vote: Vote)
    requires VotesIndexed(st)
    requires voteId !in st.votes && vote.transId == transId && transId in st.transactions
    ensures VotesIndexed(RecordVote(st, transId, voteId, vote))
  {
    var st' := RecordVote(st, transId, voteId, vote);
    forall e | e in st'.transVotes
      ensures exists k :: k in st'.votes && e == st'.votes[k].transId + k
    {
      if e == transId + voteId {
        assert st'.votes[voteId].transId + voteId == e;
      } else {
        var k :| k in st.votes && e == st.votes[k].transId + k;
        assert k in st'.votes && st'.votes[k] == st.votes[k];
      }
    }
  }

  /** Approving a stored proposal keeps the store consistent. */
  lemma ApproveKeeps(st: Store, h: VoteHasher, transId: Bytes)
    requires Consistent(st, h) && transId in st.transactions
    ensures var decided := st.(transactions := st.transactions[transId := st.transactions[transId].(decision := DecisionStatus.Approved)]);
      Consistent(decided, h) && Extends(st, decided)
  {
  }

  /** Resolving a stored proposal keeps the store consistent. */
  lemma ResolveKeeps(st: Store, h: VoteHasher, sender: UInt160, transId: Bytes)
    requires Consistent(st, h) && transId in st.transactions
    ensures var st' := After(st, Resolve(st, sender, transId, st.transactions[transId]));
      Consistent(st', h) && Extends(st, st')
  {
    var trans := st.transactions[transId];
    var decided := st.(transactions := st.transactions[transId := trans.(decision := DecisionStatus.Approved)]);
    ApproveKeeps(st, h, transId);
    match trans.proposalType {
      case NewMember =>
        UpdateMemberAsApprovedKeeps(decided, h, trans.orgId, transId);
        ExtendsTransitive(st, decided, After(decided, UpdateMemberAsApproved(decided, trans.orgId, transId)));
      case OrgRules =>
      case Pay =>
    }
  }

  lemma ExtendsTransitive(a: Store, b: Store, c: Store)
    requires Extends(a, b) && Extends(b, c)
    ensures Extends(a, c)
  {
  }

  lemma VoteKeeps(st: Store, h: VoteHasher, sender: UInt160, token: UInt160, transId: Bytes, voteFor: bool)
    requires Consistent(st, h)
    ensures var st' := After(st, Operations.Vote(st, h, sender, token, transId, voteFor));
      Consistent(st', h) && Extends(st, st')
  {
    var r := Operations.Vote(st, h, sender, token, transId, voteFor);
    if r.Ok? {
      var voteId := h(transId, sender);
      var ballot := Work.Vote(user := sender, transId := transId, voteFor := voteFor, token := token);
      var recorded := RecordVote(st, transId, voteId, ballot);
      RecordVoteKeeps(st, h, transId, voteId, ballot);
      Rules.VoteOutcome(st, h, sender, token, transId, voteFor);
      Rules.SettleCases(recorded, sender, transId, st.transactions[transId], voteFor);
      if r.value != recorded {
        ResolveKeeps(recorded, h, sender, transId);
      }
    }
  }

  /** On a consistent store whose proposal ids all have one length, and where a NewMember
      proposal has its member (as `RecordsIndexed` ensures), `Vote` succeeds exactly when its
      checks pass: the proposal exists, the sender passes `IsMemberOfOrg`, is not the proposer and
      has not voted. The org read, the tally and the resolution that follow never throw. */
  lemma VoteSucceeds(st: Store, h: VoteHasher, sender: UInt160, token: UInt160, transId: Bytes, voteFor: bool)
    requires Consistent(st, h)
    requires forall t :: t in st.transactions ==> |t| == |transId|
    requires transId in st.transactions && st.transactions[transId].proposalType == NewMember ==> transId in st.members
    ensures Operations.Vote(st, h, sender, token, transId, voteFor).Ok? <==>
      && transId in st.transactions
      && IsMemberOfOrg(st, st.transactions[transId].orgId, sender) == Ok(true)
      && sender != st.transactions[transId].user
      && h(transId, sender) !in st.votes
  {
    if transId in st.transactions && IsMemberOfOrg(st, st.transactions[transId].orgId, sender) == Ok(true)
       && sender != st.transactions[transId].user && h(transId, sender) !in st.votes {
      var trans := st.transactions[transId];
      var ballot := Rules.Ballot(sender, token, transId, voteFor);
      var recorded := RecordVote(st, transId, h(transId, sender), ballot);
      Rules.VoteChecked(st, h, sender, token, transId, voteFor);
      Rules.MembershipNeedsOrg(st, trans.orgId, sender);
      RecordVoteKeeps(st, h, transId, h(transId, sender), ballot);
      TallyDefined(recorded, h, transId);
      Rules.SettleSucceeds(recorded, sender, transId, trans, voteFor);
    } else if Operations.Vote(st, h, sender, token, transId, voteFor).Ok? {
      Rules.VoteOutcome(st, h, sender, token, transId, voteFor);
    }
  }

  // ---------------------------------------------------------------------------------------------
  // Each operation keeps every record indexed.

  lemma CreateOrganisationIndexes(st: Store, name: string, user: UInt160, creatorName: string,
                                  orgId: Option<Bytes>, memberId: Option<Bytes>, orgHash: Hash32, memberHash: Hash32)
    requires RecordsIndexed(st)
    ensures RecordsIndexed(After(st, CreateOrganisation(st, name, user, creatorName, orgId, memberId, orgHash, memberHash)))
  {
  }

  lemma AddMemberOfOrgIndexes(st: Store, sender: UInt160, orgId: Bytes, myName: string,
                              memberId: Option<Bytes>, memberHash: Hash32)
    requires RecordsIndexed(st)
    ensures RecordsIndexed(After(st, AddMemberOfOrg(st, sender, orgId, myName, memberId, memberHash)))
  {
  }

  lemma CreateTransactionIndexes(st: Store, orgId: Bytes, userId: UInt160, amount: int, evidenceCid: string,
                                 refNo: string, transId: Option<Bytes>, transHash: Hash32, token: UInt160)
    requires RecordsIndexed(st)
    ensures RecordsIndexed(After(st, CreateTransaction(st, orgId, userId, amount, evidenceCid, refNo, transId, transHash, token)))
  {
    if CreateTransaction(st, orgId, userId, amount, evidenceCid, refNo, transId, transHash, token).Ok? {
      Rules.CreateTransactionEffects(st, orgId, userId, amount, evidenceCid, refNo, transId, transHash, token);
    }
  }

  lemma UpdateMemberVoteRulesIndexes(st: Store, sender: UInt160, orgId: Bytes, voteForRequired: U16)
    requires RecordsIndexed(st)
    ensures RecordsIndexed(After(st, UpdateMemberVoteRules(st, sender, orgId, voteForRequired)))
  {
  }

  lemma UpdateMemberAsApprovedIndexes(st: Store, orgId: Bytes, memberId: Bytes)
    requires RecordsIndexed(st)
    ensures RecordsIndexed(After(st, UpdateMemberAsApproved(st, orgId, memberId)))
  {
  }

  /** Resolving a stored proposal keeps every record indexed: its approval changes neither its
      organisation nor its kind. */
  lemma ResolveIndexes(st: Store, sender: UInt160, transId: Bytes)
    requires RecordsIndexed(st) && transId in st.transactions
    ensures RecordsIndexed(After(st, Resolve(st, sender, transId, st.transactions[transId])))
  {
    var trans := st.transactions[transId];
    var decided := st.(transactions := st.transactions[transId := trans.(decision := DecisionStatus.Approved)]);
    assert RecordsIndexed(decided);
    if trans.proposalType == NewMember {
      UpdateMemberAsApprovedIndexes(decided, trans.orgId, transId);
    }
  }

  lemma VoteIndexes(st: Store, h: VoteHasher, sender: UInt160, token: UInt160, transId: Bytes, voteFor: bool)
    requires RecordsIndexed(st)
    ensures RecordsIndexed(After(st, Operations.Vote(st, h, sender, token, transId, voteFor)))
  {
    var r := Operations.Vote(st, h, sender, token, transId, voteFor);
    if r.Ok? {
      var recorded := RecordVote(st, transId, h(transId, sender), Rules.Ballot(sender, token, transId, voteFor));
      Rules.VoteOutcome(st, h, sender, token, transId, voteFor);
      Rules.SettleCases(recorded, sender, transId, st.transactions[transId], voteFor);
      assert RecordsIndexed(recorded);
      if r.value != recorded {
        ResolveIndexes(recorded, sender, transId);
      }
    }
  }

  // ---------------------------------------------------------------------------------------------
  // What the invariants give.

  /** The hypothesis of `VoteIdTakenIffVoted` can be met: some hash gives the pair an id no
      other pair has. */
  lemma NoCollisionPossible(transId: Bytes, user: UInt160)
    ensures exists h: VoteHasher :: NoCollisionAt(h, transId, user)
  {
    var own: Hash32 := seq(32, _ => 1);
    var other: Hash32 := seq(32, _ => 0);
    assert own[0] != other[0];
    var h: VoteHasher := (t: Bytes, u: UInt160) => if t == transId && u == user then own else other;
    assert NoCollisionAt(h, transId, user);
  }

  /** Once an account has voted on a proposal, the vote id of that pair is taken, so the
      `AlreadyVoted` test of `Vote` rejects a second vote whatever the hash. */
  lemma VotedHoldsId(st: Store, h: VoteHasher, transId: Bytes, user: UInt160)
    requires Consistent(st, h)
    ensures (exists k :: k in st.votes && st.votes[k].transId == transId && st.votes[k].user == user) ==>
      h(transId, user) in st.votes
  {
  }

  /** Where the hash has no collision at the pair, the vote id is taken exactly when that account
      has voted on that proposal: the `AlreadyVoted` test rejects precisely a second vote. */
  lemma VoteIdTakenIffVoted(st: Store, h: VoteHasher, transId: Bytes, user: UInt160)
    requires Consistent(st, h) && NoCollisionAt(h, transId, user)
    ensures h(transId, user) in st.votes <==>
      exists k :: k in st.votes && st.votes[k].transId == transId && st.votes[k].user == user
  {
    VotedHoldsId(st, h, transId, user);
    if h(transId, user) in st.votes {
      var k := h(transId, user);
      assert h(st.votes[k].transId, st.votes[k].user) == h(transId, user);
    }
  }

  /** In a consistent store no two votes share a proposal and an account. */
  lemma OneVotePerVoter(st: Store, h: VoteHasher, k1: Bytes, k2: Bytes)
    requires Consistent(st, h)
    requires k1 in st.votes && k2 in st.votes
    requires st.votes[k1].transId == st.votes[k2].transId && st.votes[k1].user == st.votes[k2].user
    ensures k1 == k2
  {
  }

  /** The "for" votes the tally counts are exactly the stored "for" votes on the proposal: an
      index entry of another proposal can never be mistaken for one of its votes, since every
      vote id is 32 bytes long. */
  lemma ForVotesAreBallots(st: Store, h: VoteHasher, transId: Bytes)
    requires Consistent(st, h)
    ensures ForVotes(st, transId) == set k | k in st.votes && st.votes[k].transId == transId && st.votes[k].voteFor
  {
    forall v | v in ForVotes(st, transId)
      ensures st.votes[v].transId == transId
    {
      var k :| k in st.votes && transId + v == st.votes[k].transId + k;
      assert |v| == 32 == |k|;
      SplitJoin(transId, v, st.votes[k].transId, k);
    }
    forall k | k in st.votes && st.votes[k].transId == transId && st.votes[k].voteFor
      ensures k in ForVotes(st, transId)
    {
      assert transId + k in st.transVotes;
    }
  }

  /** Between two stores one extends, the "for" votes on a proposal can only grow. */
  lemma ForVotesGrow(st: Store, st': Store, transId: Bytes)
    requires Extends(st, st')
    ensures ForVotes(st, transId) <= ForVotes(st', transId)
    ensures |ForVotes(st, transId)| <= |ForVotes(st', transId)|
  {
    SubsetSize(ForVotes(st, transId), ForVotes(st', transId));
  }

  /** Splitting a concatenation at the length of its first part. */
  lemma SplitJoin(a: Bytes, b: Bytes, c: Bytes, d: Bytes)
    requires a + b == c + d && |a| == |c|
    ensures a == c && b == d
  {
    assert a == (a + b)[..|a|] && c == (c + d)[..|c|];
    assert b == (a + b)[|a|..] && d == (c + d)[|c|..];
  }

  /** In a consistent store `IsMember` never faults: accounts are all 20 bytes long, so every
      lookup entry under an account names one of its stored members. */
  lemma IsMemberDefined(st: Store, h: VoteHasher, user: UInt160)
    requires Consistent(st, h)
    ensures IsMember(st, user).Ok?
  {
    forall m | user + m in st.userMemberLookup
      ensures m in st.members
    {
      var u: UInt160, m' :| m' in st.members && user + m == u + m';
      SplitJoin(user, m, u, m');
    }
  }

  /** When every organisation id has the length of `orgId` (all explicit, or all generated),
      `MembersOfOrg` and `OwingsByOrg` of `orgId` never fault. */
  lemma OrgQueriesDefined(st: Store, h: VoteHasher, orgId: Bytes)
    requires Consistent(st, h)
    requires forall o :: o in st.orgs ==> |o| == |orgId|
    ensures MembersOfOrg(st, orgId).Ok?
    ensures OwingsByOrg(st, orgId).Ok?
  {
    forall m | orgId + m in st.orgMembers
      ensures m in st.members
    {
      var o, m' :| o in st.orgs && m' in st.members && orgId + m == o + m';
      SplitJoin(orgId, m, o, m');
    }
    forall t | orgId + t in st.orgTransactions
      ensures t in st.transactions
    {
      var o, t' :| o in st.orgs && t' in st.transactions && orgId + t == o + t';
      SplitJoin(orgId, t, o, t');
    }
  }

  /** When every member id has the length of `memberId`, `OrgsOfMember` of it never faults. */
  lemma OrgsOfMemberDefined(st: Store, h: VoteHasher, memberId: Bytes)
    requires Consistent(st, h)
    requires forall m :: m in st.members ==> |m| == |memberId|
    ensures OrgsOfMember(st, memberId).Ok?
  {
    forall o | memberId + o in st.memberOrgs
      ensures o in st.orgs
    {
      var m, o' :| m in st.members && o' in st.orgs && memberId + o == m + o';
      SplitJoin(memberId, o, m, o');
    }
  }

  /** When every proposal id has the length of `transId`, the tally of `transId` never faults
      and counts exactly the stored "for" votes on it. */
  lemma TallyDefined(st: Store, h: VoteHasher, transId: Bytes)
    requires Consistent(st, h)
    requires forall t :: t in st.transactions ==> |t| == |transId|
    ensures TallyVotes(st, transId).Ok?
    ensures TallyVotes(st, transId).value.votesFor
         == |set k | k in st.votes && st.votes[k].transId == transId && st.votes[k].voteFor|
  {
    forall v | transId + v in st.transVotes
      ensures v in st.votes
    {
      var k :| k in st.votes && transId + v == st.votes[k].transId + k;
      SplitJoin(transId, v, st.votes[k].transId, k);
    }
    ForVotesAreBallots(st, h, transId);
  }
}
