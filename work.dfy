/** The records and enumerations of Classes/Work.cs. Each record is a datatype whose constructor
    parameters carry the C# field initialisers as defaults; each enumeration comes with the
    integer values it is serialised and passed as. */
module Work {
  import opened Keys

  datatype DecisionStatus = Undecided | Approved | Rejected

  datatype QueryType = None | User

  datatype MemberQueryType = All | Approved

  datatype ProposalType = Pay | NewMember | OrgRules

  /** The integer value of a `DecisionStatus`. */
  function DecisionStatusValue(d: DecisionStatus): int
  {
    match d
    case Undecided => 0
    case Approved => 1
    case Rejected => 2
  }

  /** The `DecisionStatus` an integer stands for, if any: exactly 0, 1 and 2 do, each for one status. */
  function DecisionStatusOf(n: int): (d: Option<DecisionStatus>)
    ensures d.Some? <==> 0 <= n <= 2
    ensures d.Some? ==> DecisionStatusValue(d.value) == n
  {
    if n == 0 then Some(Undecided)
    else if n == 1 then Some(DecisionStatus.Approved)
    else if n == 2 then Some(Rejected)
    else Option.None
  }

  lemma DecisionStatusRoundTrip(d: DecisionStatus)
    ensures DecisionStatusOf(DecisionStatusValue(d)) == Some(d)
  {
  }

  function MemberQueryTypeValue(q: MemberQueryType): int
  {
    match q
    case All => 0
    case Approved => 1
  }

  /** The `MemberQueryType` an integer stands for: exactly 0 (All) and 1 (Approved). */
  function MemberQueryTypeOf(n: int): (q: Option<MemberQueryType>)
    ensures q.Some? <==> 0 <= n <= 1
    ensures q.Some? ==> MemberQueryTypeValue(q.value) == n
  {
    if n == 0 then Some(All) else if n == 1 then Some(MemberQueryType.Approved) else Option.None
  }

  function QueryTypeValue(q: QueryType): int
  {
    match q
    case None => 0
    case User => 1
  }

  /** The `QueryType` an integer stands for: exactly 0 (None) and 1 (User). */
  function QueryTypeOf(n: int): (q: Option<QueryType>)
    ensures q.Some? <==> 0 <= n <= 1
    ensures q.Some? ==> QueryTypeValue(q.value) == n
  {
    if n == 0 then Some(QueryType.None) else if n == 1 then Some(User) else Option.None
  }

  function ProposalTypeValue(p: ProposalType): int
  {
    match p
    case Pay => 0
    case NewMember => 1
    case OrgRules => 2
  }

  /** The `ProposalType` an integer stands for: exactly 0 (Pay), 1 (NewMember) and 2 (OrgRules). */
  function ProposalTypeOf(n: int): (p: Option<ProposalType>)
    ensures p.Some? <==> 0 <= n <= 2
    ensures p.Some? ==> ProposalTypeValue(p.value) == n
  {
    if n == 0 then Some(Pay) else if n == 1 then Some(NewMember) else if n == 2 then Some(OrgRules) else Option.None
  }

  /** `ProposalTransaction`: a proposal. The C# default of `OrgId` is null; every path that stores
      a proposal assigns it, so the model's default is the empty byte string. */
  datatype ProposalTransaction = ProposalTransaction(
    orgId: Bytes := [],
    user: UInt160 := Zero160(),
    evidenceCid: string := "",
    refNo: string := "",
    total: int := 0,
    token: UInt160 := Zero160(),
    decision: DecisionStatus := Undecided,
    proposalType: ProposalType := Pay)

  /** `Vote`: one account's vote on one proposal. */
  datatype Vote = Vote(
    user: UInt160 := Zero160(),
    transId: Bytes := [],
    voteFor: bool := false,
    token: UInt160 := Zero160())

  /** `Organisation`. `MemberCount` is a `UInt16` in C#; the model does not bound it. */
  datatype Organisation = Organisation(
    name: string := "",
    orgId: Bytes := [],
    creatorUser: UInt160 := Zero160(),
    memberCount: nat := 1,
    voteForRequired: U16 := 1)

  /** `Member`. */
  datatype Member = Member(
    name: string := "",
    user: UInt160 := Zero160(),
    decision: DecisionStatus := Undecided)

  /** What a freshly constructed record holds before any field is assigned. */
  lemma FreshRecords()
    ensures var t := ProposalTransaction(); t.decision == Undecided && t.proposalType == Pay && t.total == 0
    ensures var v := Vote(); !v.voteFor && v.user == Zero160()
    ensures var o := Organisation(); o.memberCount == 1 && o.voteForRequired == 1
    ensures Member().decision == Undecided
  {
  }
}
