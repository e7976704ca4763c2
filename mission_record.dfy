/** The mission record as the frontend reads it from the escrow contract's
    `missions(id)` getter: a 14-field tuple, in the order of the contract's
    struct. The contract itself is not part of this model; only the shape of
    what it returns is. */
module MissionRecord {

  import opened Wrappers

  /** An account address as the wallet or the contract returns it
      (`0x` followed by 40 hexadecimal digits, in any case). */
  type Address = string

  /** The tuple returned by `missions(id)`. Amounts and timestamps are
      `uint256` (unbounded naturals here); `status` is the raw `uint8`
      code the frontend compares with number literals. */
  datatype Mission = Mission(
    creator: Address,
    title: string,
    description: string,
    rejectionMessage: string,
    paymentAmount: nat,
    escrowedAmount: nat,
    deliveryDeadline: nat,
    validationDeadline: nat,
    validationPeriod: nat,
    deliveredAt: nat,
    arbiter: bool,
    freelancer: Address,
    cancellationType: bool,
    status: nat)

  /** The lifecycle stages, in the order of their numeric codes 0..8. */
  datatype Status =
    | Created | Funded | InProgress | Delivered | Approved
    | Rejected | Disputed | Refunded | Cancelled

  function Code(s: Status): (c: nat)
    ensures c <= 8
  {
    match s
    case Created => 0
    case Funded => 1
    case InProgress => 2
    case Delivered => 3
    case Approved => 4
    case Rejected => 5
    case Disputed => 6
    case Refunded => 7
    case Cancelled => 8
  }

  /** Decodes a raw status code; codes above 8 name no stage. */
  function StatusOf(c: nat): (s: Option<Status>)
    ensures s.Some? <==> c <= 8
  {
    if c == 0 then Some(Created)
    else if c == 1 then Some(Funded)
    else if c == 2 then Some(InProgress)
    else if c == 3 then Some(Delivered)
    else if c == 4 then Some(Approved)
    else if c == 5 then Some(Rejected)
    else if c == 6 then Some(Disputed)
    else if c == 7 then Some(Refunded)
    else if c == 8 then Some(Cancelled)
    else None
  }

  /** Decoding and encoding are inverse: every stage has exactly one code. */
  lemma CodeRoundTrip(s: Status, c: nat)
    ensures StatusOf(Code(s)) == Some(s)
    ensures StatusOf(c) == Some(s) <==> c == Code(s)
  {
  }

  /** The stages after which the contract accepts no further action. */
  predicate IsTerminal(s: Status) {
    s == Approved || s == Refunded || s == Cancelled
  }
}
