/** The contract's storage as one value, and the ways an invocation can fail. */
module Ledger {
  import opened Keys
  import opened Work

  /** Every reason an invocation throws. NEO discards all storage writes of an invocation that
      throws, so a failure never changes the store. */
  datatype Error =
    | IdLengthInvalid      // an explicit identifier that is not 16 bytes long
    | OrgExists            // "specified orgId already exists"
    | OrgNotFound          // the organisation record is absent
    | TransactionExists    // "specified transId already exists"
    | TransactionNotFound  // "cannot find the transaction."
    | NotApprovedMember    // `IsMemberOfOrg` answered false
    | OwnProposal          // "You cannot vote on your own proposal!"
    | AlreadyVoted         // "you cannot Vote twice!"
    | NotOwner             // "Only the contract owner can do this"
    | MemberNotFound       // "memberId does not exist"
    | RecordMissing        // an index entry whose record is absent: deserialising the null read faults
    | TotalOutOfRange      // `(UInt16) trans.Total` of a total outside 0..65535
    | NullArgument         // a query handed a null identifier throws `ArgumentException`

  datatype Result<T> = Ok(value: T) | Err(error: Error)

  /** The contract's storage: one map per record store, one key set per index map
      (whose values are always 0), and the `Owner` metadata entry. */
  datatype Store = Store(
    orgs: map<Bytes, Organisation>,          // Prefix_Orgs 0xAA, keyed by orgId
    members: map<Bytes, Member>,             // Prefix_Members 0xAC, keyed by memberId
    transactions: map<Bytes, ProposalTransaction>, // Prefix_Transactions 0x00, keyed by transId
    votes: map<Bytes, Vote>,                 // Prefix_Votes 0x05, keyed by voteId
    orgMembers: set<Bytes>,                  // Prefix_Org_Members 0xAB: orgId + memberId
    memberOrgs: set<Bytes>,                  // Prefix_Member_Orgs 0xAD: memberId + orgId
    userMemberLookup: set<Bytes>,            // Prefix_User_Member_Lookup 0x90: user + memberId
    orgTransactions: set<Bytes>,             // Prefix_Org_Transactions 0x01: orgId + transId
    transVotes: set<Bytes>,                  // Prefix_Trans_Votes 0x06: transId + voteId
    owner: Option<UInt160>)                  // Metadata "Owner"

  /** The storage of a contract before `_deploy` runs. */
  const EmptyStore := Store(map[], map[], map[], map[], {}, {}, {}, {}, {}, Option.None)

  /** The vote identifier `Sha256(Serialize([transId, user]))`, a function the model does not open. */
  type VoteHasher = (Bytes, UInt160) -> Hash32

  /** The error an invocation with outcome `r` throws, if any. */
  function ErrorOf(r: Result<Store>): (e: Option<Error>)
    ensures e.None? <==> r.Ok?
    ensures e.Some? ==> r == Err(e.value)
  {
    if r.Ok? then Option.None else Some(r.error)
  }

  /** The store after an invocation with outcome `r`: its writes on success, none on failure. */
  function After(st: Store, r: Result<Store>): Store
  {
    if r.Ok? then r.value else st
  }
}
