/** The read-only side of DAOCakeContract.cs: every query is a function of the store, so none
    of them can write storage, and asking twice without a write in between gives the same answer. */
module Queries {
  import opened Keys
  import opened Work
  import opened Ledger

  /** Reads the record of every identifier in `ids`, as the query loops do with
      `StdLib.Deserialize(map.Get(id))`: one absent record faults the whole call. */
  function Load<V>(ids: set<Bytes>, records: map<Bytes, V>): (r: Result<map<Bytes, V>>)
    ensures r.Ok? <==> ids <= records.Keys
    ensures r.Err? ==> r.error == RecordMissing
    ensures r.Ok? ==> r.value.Keys == ids && forall id :: id in ids ==> r.value[id] == records[id]
  {
    if exists id :: id in ids && id !in records then Err(RecordMissing)
    else Ok(map id | id in ids :: records[id])
  }

  /** `Votes(transId)`: the votes indexed under the proposal, by vote id. */
  function Votes(st: Store, transId: Bytes): (r: Result<map<Bytes, Vote>>)
    ensures r.Ok? <==> forall v :: transId + v in st.transVotes ==> v in st.votes
    ensures r.Ok? ==> forall v :: v in r.value <==> transId + v in st.transVotes
    ensures r.Ok? ==> forall v :: v in r.value ==> r.value[v] == st.votes[v]
  {
    Load(Find(st.transVotes, transId), st.votes)
  }

  /** `MembersOfOrg(orgId)`: the members indexed under the organisation, by member id. */
  function MembersOfOrg(st: Store, orgId: Bytes): (r: Result<map<Bytes, Member>>)
    ensures r.Ok? <==> forall m :: orgId + m in st.orgMembers ==> m in st.members
    ensures r.Ok? ==> forall m :: m in r.value <==> orgId + m in st.orgMembers
    ensures r.Ok? ==> forall m :: m in r.value ==> r.value[m] == st.members[m]
  {
    Load(Find(st.orgMembers, orgId), st.members)
  }

  /** `OrgsOfMember(memberId)`: the organisations indexed under the member, by org id. */
  function OrgsOfMember(st: Store, memberId: Bytes): (r: Result<map<Bytes, Organisation>>)
    ensures r.Ok? <==> forall o :: memberId + o in st.memberOrgs ==> o in st.orgs
    ensures r.Ok? ==> forall o :: o in r.value <==> memberId + o in st.memberOrgs
    ensures r.Ok? ==> forall o :: o in r.value ==> r.value[o] == st.orgs[o]
  {
    Load(Find(st.memberOrgs, memberId), st.orgs)
  }

  /** `GetMemberObj(memberId)`: the member record, or "memberId does not exist". */
  function GetMemberObj(st: Store, memberId: Bytes): (r: Result<Member>)
    ensures r.Ok? <==> memberId in st.members
    ensures r.Ok? ==> r.value == st.members[memberId]
    ensures r.Err? ==> r.error == MemberNotFound
  {
    if memberId in st.members then Ok(st.members[memberId]) else Err(MemberNotFound)
  }

  /** `IsMember(user, status)`: the member id of the user's lookup entry that storage iterates
      LAST (the loop overwrites `memberId` on every entry and `continue` does not stop it), or none
      when the user has no entry. `status` has no effect: both arms of the switch and the code
      after it return that id whatever the member's decision, so this function takes no status. */
  ghost function IsMember(st: Store, user: UInt160): (r: Result<Option<Bytes>>)
    ensures r.Ok? <==> forall m :: user + m in st.userMemberLookup ==> m in st.members
    ensures r == Ok(Option.None) <==> forall m :: user + m !in st.userMemberLookup
    ensures r.Ok? && r.value.Some? ==>
      user + r.value.value in st.userMemberLookup && IsGreatest(Find(st.userMemberLookup, user), r.value.value)
  {
    var ids := Find(st.userMemberLookup, user);
    if exists m :: m in ids && m !in st.members then Err(RecordMissing)
    else if ids == {} then Ok(Option.None)
    else Ok(Some(Greatest(ids)))
  }

  /** `IsMemberOfOrg(orgId, user, status)`: whether the organisation is among the organisations of
      the member id `IsMember` picks. Approval is never consulted: what makes a member count is the
      `memberId + orgId` entry of Member_Orgs. */
  ghost function IsMemberOfOrg(st: Store, orgId: Bytes, user: UInt160): (r: Result<bool>)
    ensures r == Ok(true) <==>
      exists m :: IsMember(st, user) == Ok(Some(m)) && OrgsOfMember(st, m).Ok? && m + orgId in st.memberOrgs
    ensures r.Err? <==>
      IsMember(st, user).Err? || (IsMember(st, user).value.Some? && OrgsOfMember(st, IsMember(st, user).value.value).Err?)
  {
    match IsMember(st, user)
    case Err(e) => Err(e)
    case Ok(found) =>
      if found.None? then Ok(false)
      else match OrgsOfMember(st, found.value)
        case Err(e) => Err(e)
        case Ok(orgs) => Ok(orgId in orgs)
  }

  /** `OrgsOfMemberByUser(user)`: the organisations of the member id `IsMember` picks; a user with
      no member hands `OrgsOfMember` a null id, which throws. */
  ghost function OrgsOfMemberByUser(st: Store, user: UInt160): (r: Result<map<Bytes, Organisation>>)
    ensures r.Ok? ==> exists m :: IsMember(st, user) == Ok(Some(m)) && r == OrgsOfMember(st, m)
    ensures forall m :: IsMember(st, user) == Ok(Some(m)) ==> r == OrgsOfMember(st, m)
    ensures IsMember(st, user) == Ok(Option.None) ==> r == Err(NullArgument)
    ensures IsMember(st, user).Err? ==> r == Err(IsMember(st, user).error)
  {
    match IsMember(st, user)
    case Err(e) => Err(e)
    case Ok(found) => if found.None? then Err(NullArgument) else OrgsOfMember(st, found.value)
  }

  /** `OwingsQuery(queryType, orgId, user)`: the proposals indexed under the organisation, keeping
      with `QueryType.User` only those proposed by `user`. Every proposal is read before the filter,
      so an absent one faults the call whatever the filter. */
  function OwingsQuery(st: Store, queryType: QueryType, orgId: Bytes, user: UInt160): (r: Result<map<Bytes, ProposalTransaction>>)
    ensures r.Ok? <==> forall t :: orgId + t in st.orgTransactions ==> t in st.transactions
    ensures r.Err? ==> r.error == RecordMissing
    ensures r.Ok? ==> forall t :: t in r.value <==>
      orgId + t in st.orgTransactions && (queryType == QueryType.None || st.transactions[t].user == user)
    ensures r.Ok? ==> forall t :: t in r.value ==> r.value[t] == st.transactions[t]
  {
    match Load(Find(st.orgTransactions, orgId), st.transactions)
    case Err(e) => Err(e)
    case Ok(all) => Ok(map t | t in all && !(queryType == User && all[t].user != user) :: all[t])
  }

  /** `OwingsToUser(orgId, user)`: the organisation's proposals made by `user`, and all of them. */
  function OwingsToUser(st: Store, orgId: Bytes, user: UInt160): (r: Result<map<Bytes, ProposalTransaction>>)
    ensures r.Ok? <==> forall t :: orgId + t in st.orgTransactions ==> t in st.transactions
    ensures r.Err? ==> r.error == RecordMissing
    ensures r.Ok? ==> forall t :: t in r.value ==> orgId + t in st.orgTransactions && r.value[t].user == user
    ensures r.Ok? ==> forall t :: t in r.value ==> r.value[t] == st.transactions[t]
    ensures r.Ok? ==> forall t :: orgId + t in st.orgTransactions ==>
      t in st.transactions && (t in r.value <==> st.transactions[t].user == user)
  {
    OwingsQuery(st, User, orgId, user)
  }

  /** `OwingsByOrg(orgId)`: every proposal indexed under the organisation. */
  function OwingsByOrg(st: Store, orgId: Bytes): (r: Result<map<Bytes, ProposalTransaction>>)
    ensures r.Ok? <==> forall t :: orgId + t in st.orgTransactions ==> t in st.transactions
    ensures r.Err? ==> r.error == RecordMissing
    ensures r.Ok? ==> forall t :: t in r.value <==> orgId + t in st.orgTransactions
    ensures r.Ok? ==> forall t :: t in r.value ==> r.value[t] == st.transactions[t]
  {
    OwingsQuery(st, QueryType.None, orgId, Zero160())
  }

  /** `Owings(orgId)`: the same scan as `OwingsByOrg`, for an org id typed as a 20-byte `UInt160`. */
  function Owings(st: Store, orgId: UInt160): (r: Result<map<Bytes, ProposalTransaction>>)
    ensures r.Ok? <==> forall t :: orgId + t in st.orgTransactions ==> t in st.transactions
    ensures r.Err? ==> r.error == RecordMissing
    ensures r.Ok? ==> forall t :: t in r.value <==> orgId + t in st.orgTransactions
    ensures r.Ok? ==> forall t :: t in r.value ==> t in st.transactions && r.value[t] == st.transactions[t]
  {
    Load(Find(st.orgTransactions, orgId), st.transactions)
  }

  /** The vote counts the tally loop of `Vote` computes. */
  datatype Tally = Tally(votes: nat, votesFor: nat)

  /** The "for" votes among the votes indexed under a proposal. */
  function ForVotes(st: Store, transId: Bytes): set<Bytes>
  {
    set v | v in Find(st.transVotes, transId) && v in st.votes && st.votes[v].voteFor
  }

  /** The tally of `Vote` (DAOCakeContract.cs:362-371): every vote indexed under the proposal is
      read, counted, and counted again when it is "for". */
  function TallyVotes(st: Store, transId: Bytes): (r: Result<Tally>)
    ensures r.Ok? <==> forall v :: transId + v in st.transVotes ==> v in st.votes
    ensures r.Ok? ==> r.value.votes == |Find(st.transVotes, transId)|
    ensures r.Ok? ==> r.value.votesFor == |ForVotes(st, transId)| <= r.value.votes
  {
    var ids := Find(st.transVotes, transId);
    if exists v :: v in ids && v !in st.votes then Err(RecordMissing)
    else
      assert ForVotes(st, transId) <= ids;
      SubsetSize(ForVotes(st, transId), ids);
      Ok(Tally(|ids|, |ForVotes(st, transId)|))
  }

  lemma {:induction false} SubsetSize<T>(a: set<T>, b: set<T>)
    requires a <= b
    ensures |a| <= |b|
    decreases |b|
  {
    if b != {} {
      var x :| x in b;
      SubsetSize(a - {x}, b - {x});
    }
  }
}
