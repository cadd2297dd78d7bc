/** The enumerations shared by the platform's packages, with the text each value serialises to. */
module Enums {

  datatype RACIRole = Responsible | Accountable | Consulted | Informed

  datatype DecisionType = DataPromotion | SchemaChange | AccessGrant | ExpertRegistration | PolicyChange | Emergency

  datatype DecisionStatus = Pending | AwaitingApproval | Approved | Rejected | Vetoed | Escalated

  datatype VoteValue = Approve | Reject | Abstain

  datatype VetoStatus = Active | Expired | Overridden

  datatype AuditEventType =
    | DecisionCreated | DecisionSubmitted | ApprovalCast | DecisionApproved | DecisionRejected
    | VetoExercised | VetoOverridden | VetoExpired | DecisionEscalated
    | ExpertRegistered | ExpertDeregistered | DataPromoted | RoleAssigned | RoleRevoked

  datatype DAMADimension = Completeness | Accuracy | Consistency | Timeliness | Uniqueness | Validity

  datatype MedallionLayer = Bronze | Silver | Gold | Platinum

  datatype Option<+T> = None | Some(value: T)

  function RoleText(role: RACIRole): string {
    match role
    case Responsible => "responsible"
    case Accountable => "accountable"
    case Consulted => "consulted"
    case Informed => "informed"
  }

  function VoteText(vote: VoteValue): string {
    match vote
    case Approve => "approve"
    case Reject => "reject"
    case Abstain => "abstain"
  }

  function StatusText(status: DecisionStatus): string {
    match status
    case Pending => "pending"
    case AwaitingApproval => "awaiting_approval"
    case Approved => "approved"
    case Rejected => "rejected"
    case Vetoed => "vetoed"
    case Escalated => "escalated"
  }

  function LayerText(layer: MedallionLayer): string {
    match layer
    case Bronze => "bronze"
    case Silver => "silver"
    case Gold => "gold"
    case Platinum => "platinum"
  }

  /** A reader of these texts, which knows them by their spelling. */
  function ParseRole(text: string): Option<RACIRole> {
    if text == "responsible" then Some(Responsible)
    else if text == "accountable" then Some(Accountable)
    else if text == "consulted" then Some(Consulted)
    else if text == "informed" then Some(Informed)
    else None
  }

  function ParseVote(text: string): Option<VoteValue> {
    if text == "approve" then Some(Approve)
    else if text == "reject" then Some(Reject)
    else if text == "abstain" then Some(Abstain)
    else None
  }

  /** Reading a serialised role or vote gives back the value that was written. */
  lemma ParseInvertsText(role: RACIRole, vote: VoteValue)
    ensures ParseRole(RoleText(role)) == Some(role)
    ensures ParseVote(VoteText(vote)) == Some(vote)
  {
    assert RoleText(Responsible)[0] == 'r' && RoleText(Accountable)[0] == 'a';
    assert RoleText(Consulted)[0] == 'c' && RoleText(Informed)[0] == 'i';
    assert VoteText(Approve)[1] == 'p' && VoteText(Reject)[1] == 'e' && VoteText(Abstain)[1] == 'b';
  }
}
