/** The mission detail page: who the connected wallet is with respect to one
    mission, which of the contract's actions the page offers to it, and what
    call a click on an offered action sends. The page only mirrors the
    contract's preconditions as guards on its buttons; the contract still
    decides. */
module MissionDetails {

  import opened Wrappers
  import opened Text
  import opened MissionRecord
  import Clock

  /* ---------------- addresses ---------------- */

  /** The zero address, which the contract reports as the freelancer of a
      mission nobody has accepted yet. */
  const ZERO: Address := "0x0000000000000000000000000000000000000000"

  /** `isZeroAddr`: the address is the zero address, in any letter case.
      The zero address is spelled in small letters already, so this is the
      page's case-insensitive comparison with it, and a zero address has
      its 42 characters. */
  predicate IsZeroAddr(a: Address): (zero: bool)
    ensures zero <==> SameAddress(a, ZERO)
    ensures zero ==> |a| == 42
  {
    ZeroIsLower();
    ToLower(a) == ZERO
  }

  lemma ZeroIsLower()
    ensures ToLower(ZERO) == ZERO
  {
    forall i | 0 <= i < |ZERO| ensures LowerChar(ZERO[i]) == ZERO[i] {
      assert !IsUpper(ZERO[i]);
    }
  }

  /** The case-insensitive comparison the page uses for every address. */
  predicate SameAddress(a: Address, b: Address) {
    ToLower(a) == ToLower(b)
  }

  /** `shortAddr`: the first six and the last four characters around an
      ellipsis, or a dash for the empty string. As with `slice`, a string
      shorter than six (or four) characters is taken whole on that side. */
  function ShortAddr(a: string): (r: string)
    ensures a == "" ==> r == "—"
    ensures |a| >= 10 ==> |r| == 11 && r[..6] == a[..6] && r[6] == '…' && r[7..] == a[|a| - 4..]
    ensures 0 < |a| < 10 ==> |r| > 1 && r[0] == a[0] && r[|r| - 1] == a[|a| - 1]
    ensures |a| >= 6 ==> r == a[..6] + "…" + a[|a| - 4..]
    ensures 4 <= |a| < 6 ==> r == a + "…" + a[|a| - 4..]
    ensures 0 < |a| < 4 ==> r == a + "…" + a
  {
    if a == "" then "—"
    else
      var head := if |a| < 6 then a else a[..6];
      var tail := if |a| < 4 then a else a[|a| - 4..];
      head + "…" + tail
  }

  /* ---------------- class names ---------------- */

  /** An argument of `cls`: a class name, or `false`/`undefined`. */
  datatype ClassArg = Name(name: string) | Off

  predicate Truthy(x: ClassArg) {
    x.Name? && x.name != ""
  }

  /** `x.filter(Boolean)`: the truthy arguments, in order. */
  function Kept(xs: seq<ClassArg>): (r: seq<string>)
    ensures forall i :: 0 <= i < |r| ==> r[i] != ""
    ensures |r| <= |xs|
    ensures r == [] <==> forall i :: 0 <= i < |xs| ==> !Truthy(xs[i])
  {
    if xs == [] then []
    else if Truthy(xs[|xs| - 1]) then Kept(xs[..|xs| - 1]) + [xs[|xs| - 1].name]
    else Kept(xs[..|xs| - 1])
  }

  /** A single argument is kept exactly when it is truthy. */
  lemma KeptOne(x: ClassArg)
    ensures Kept([x]) == if Truthy(x) then [x.name] else []
  {
    assert [x][..0] == [];
  }

  /** Filtering distributes over concatenation: together with `KeptOne`,
      this fixes `Kept` as the order-preserving filter. */
  lemma {:induction false} KeptAppend(xs: seq<ClassArg>, ys: seq<ClassArg>)
    ensures Kept(xs + ys) == Kept(xs) + Kept(ys)
    decreases |ys|
  {
    if ys == [] {
      assert xs + ys == xs;
    } else {
      var init := ys[..|ys| - 1];
      assert (xs + ys)[..|xs + ys| - 1] == xs + init;
      KeptAppend(xs, init);
    }
  }

  /** `parts.join(" ")`. */
  function JoinSpace(parts: seq<string>): string {
    if parts == [] then ""
    else if |parts| == 1 then parts[0]
    else JoinSpace(parts[..|parts| - 1]) + " " + parts[|parts| - 1]
  }

  lemma {:induction false} JoinNonEmpty(parts: seq<string>)
    requires forall i :: 0 <= i < |parts| ==> parts[i] != ""
    ensures JoinSpace(parts) == "" <==> parts == []
  {
    if |parts| > 1 {
      JoinNonEmpty(parts[..|parts| - 1]);
    }
  }

  /** `cls(...x)`: the truthy arguments joined by single spaces; empty
      exactly when no argument is truthy. */
  function Cls(xs: seq<ClassArg>): (r: string)
    ensures r == "" <==> forall i :: 0 <= i < |xs| ==> !Truthy(xs[i])
  {
    JoinNonEmpty(Kept(xs));
    JoinSpace(Kept(xs))
  }

  /** Appending a falsy argument changes nothing; appending a class name
      adds it after a space, or alone when nothing came before. */
  lemma {:induction false} ClsAppend(xs: seq<ClassArg>, x: ClassArg)
    ensures !Truthy(x) ==> Cls(xs + [x]) == Cls(xs)
    ensures Truthy(x) ==> Cls(xs + [x]) == if Cls(xs) == "" then x.name else Cls(xs) + " " + x.name
  {
    assert (xs + [x])[..|xs|] == xs;
    JoinNonEmpty(Kept(xs));
  }

  const Dimmed := "opacity-50 cursor-not-allowed"

  /** Every action button's class list: its base classes, plus the dimmed
      look exactly when the button is disabled. */
  lemma ButtonClass(base: string, disabled: bool)
    requires base != ""
    ensures Cls([Name(base), if disabled then Name(Dimmed) else Off])
         == if disabled then base + " " + Dimmed else base
  {
    var x := if disabled then Name(Dimmed) else Off;
    ClsAppend([], Name(base));
    assert [] + [Name(base)] == [Name(base)];
    assert Cls([Name(base)]) == base;
    assert [Name(base), x] == [Name(base)] + [x];
    ClsAppend([Name(base)], x);
  }

  /* ---------------- status label ---------------- */

  /** `STATUS[s]`: the name of each stage. */
  function Label(s: Status): string {
    match s
    case Created => "Created"
    case Funded => "Funded"
    case InProgress => "InProgress"
    case Delivered => "Delivered"
    case Approved => "Approved"
    case Rejected => "Rejected"
    case Disputed => "Disputed"
    case Refunded => "Refunded"
    case Cancelled => "Cancelled"
  }

  /** `statusLabel`: the stage name for codes 0..8, `Status #<code>` for any
      other code. */
  function StatusLabel(code: nat): (r: string)
    ensures r != ""
    ensures code > 8 ==> |r| > 8 && r[..8] == "Status #" && AllDigits(r[8..]) && DigitsValue(r[8..]) == code
  {
    LabelShape(Created);
    NatToStringRoundTrip(code);
    assert ("Status #" + NatToString(code))[8..] == NatToString(code);
    match StatusOf(code)
    case Some(s) => Label(s)
    case None => "Status #" + NatToString(code)
  }

  lemma StatusLabelOfStatus(s: Status, code: nat)
    ensures StatusLabel(Code(s)) == Label(s)
    ensures code > 8 ==> StatusLabel(code) == "Status #" + NatToString(code)
  {
    CodeRoundTrip(s, Code(s));
  }

  /** Different codes never share a label, so the badge always tells the
      status apart, known stage or not. */
  lemma StatusLabelInjective(a: nat, b: nat)
    ensures StatusLabel(a) == StatusLabel(b) ==> a == b
  {
    if StatusLabel(a) == StatusLabel(b) {
      var la := StatusLabel(a);
      if a > 8 && b > 8 {
        assert la[8..] == NatToString(a);
        assert StatusLabel(b)[8..] == NatToString(b);
        NatToStringRoundTrip(a);
        NatToStringRoundTrip(b);
      } else if a > 8 {
        LabelShape(StatusOf(b).value);
      } else if b > 8 {
        LabelShape(StatusOf(a).value);
      } else {
        var sa, sb := StatusOf(a).value, StatusOf(b).value;
        LabelInjective(sa, sb);
        CodeRoundTrip(sa, a);
        CodeRoundTrip(sb, b);
      }
    }
  }

  lemma LabelShape(s: Status)
    ensures |Label(s)| > 0 && Label(s)[0] != 'S'
  {
  }

  lemma LabelInjective(s: Status, t: Status)
    ensures Label(s) == Label(t) ==> s == t
  {
    if Label(s) == Label(t) {
      assert |Label(s)| == |Label(t)|;
      assert Label(s)[0] == Label(t)[0];
      assert Label(s)[1] == Label(t)[1];
    }
  }

  /* ---------------- role ---------------- */

  datatype Role = Owner | Creator | Freelancer | Visitor

  /** `!address` is false: a wallet is connected and reports an address. */
  predicate HasAddress(address: Option<Address>) {
    address.Some? && address.value != ""
  }

  /** `ownerData ?? ZERO`: the contract owner, or the zero address while it
      has not been read. */
  function OwnerOrZero(ownerData: Option<Address>): Address {
    if ownerData.Some? then ownerData.value else ZERO
  }

  /** The `role` memo: the connected address checked against the owner, the
      creator and the freelancer, in that order, ignoring letter case. */
  function ResolveRole(address: Option<Address>, ownerData: Option<Address>, mission: Option<Mission>): (r: Role)
    ensures !HasAddress(address) || mission.None? ==> r == Visitor
    ensures HasAddress(address) && mission.Some? ==>
      var a, m, o := address.value, mission.value, OwnerOrZero(ownerData);
      && (r == Owner <==> SameAddress(a, o))
      && (r == Creator <==> !SameAddress(a, o) && SameAddress(a, m.creator))
      && (r == Freelancer <==> !SameAddress(a, o) && !SameAddress(a, m.creator) && SameAddress(a, m.freelancer))
      && (r == Visitor <==> !SameAddress(a, o) && !SameAddress(a, m.creator) && !SameAddress(a, m.freelancer))
  {
    if !HasAddress(address) || mission.None? then Visitor
    else
      var a := ToLower(address.value);
      if a == ToLower(OwnerOrZero(ownerData)) then Owner
      else if a == ToLower(mission.value.creator) then Creator
      else if a == ToLower(mission.value.freelancer) then Freelancer
      else Visitor
  }

  function LowerOpt(a: Option<Address>): Option<Address> {
    if a.Some? then Some(ToLower(a.value)) else None
  }

  /** Letter case plays no part: lower-casing the connected address, the
      owner, the creator and the freelancer leaves the role unchanged. */
  lemma RoleIgnoresCase(address: Option<Address>, ownerData: Option<Address>, mission: Option<Mission>)
    ensures var lowered :=
        if mission.Some? then Some(mission.value.(creator := ToLower(mission.value.creator),
                                                  freelancer := ToLower(mission.value.freelancer)))
        else None;
      ResolveRole(LowerOpt(address), LowerOpt(ownerData), lowered) == ResolveRole(address, ownerData, mission)
  {
    if address.Some? {
      ToLowerIdempotent(address.value);
    }
    if ownerData.Some? {
      ToLowerIdempotent(ownerData.value);
    }
    if mission.Some? {
      ToLowerIdempotent(mission.value.creator);
      ToLowerIdempotent(mission.value.freelancer);
    }
  }

  /* ---------------- action guards ---------------- */

  /** The eleven actions the page offers (resolving a dispute has two
      buttons, one per outcome, behind one guard). */
  datatype Action =
    | Fund | Cancel | Accept | Deliver | Approve | Reject | AutoApprove
    | Dispute | ResolveDispute | Refund | UpdateDeadline

  predicate CreatorOnly(a: Action) {
    a == Fund || a == Cancel || a == Approve || a == Reject || a == Refund || a == UpdateDeadline
  }

  predicate FreelancerOnly(a: Action) {
    a == Deliver || a == AutoApprove
  }

  /** The `can*` guards: whether the page enables the action's button for a
      caller of the given role, with the mission as last read. */
  function Enabled(a: Action, role: Role, mission: Option<Mission>): (r: bool)
    ensures r ==> mission.Some?
    ensures r && StatusOf(mission.value.status).Some? ==> !IsTerminal(StatusOf(mission.value.status).value)
    ensures r && CreatorOnly(a) ==> role == Creator
    ensures r && FreelancerOnly(a) ==> role == Freelancer
    ensures r && a == Dispute ==> role == Creator || role == Freelancer
    ensures r && a == ResolveDispute ==>
      role == Owner && mission.value.arbiter && mission.value.status == Code(Disputed)
    ensures r && a == Refund ==>
      && mission.value.escrowedAmount > 0
      && mission.value.status !in {Code(Approved), Code(Disputed), Code(Refunded), Code(Cancelled)}
  {
    mission.Some? &&
    var m := mission.value;
    match a
    case Cancel =>
      role == Creator && (m.status == Code(Created) || m.status == Code(Funded)) && IsZeroAddr(m.freelancer)
    case Fund =>
      role == Creator && m.status == Code(Created)
    case Accept =>
      role != Creator && m.status == Code(Funded) && IsZeroAddr(m.freelancer)
    case Deliver =>
      role == Freelancer && (m.status == Code(InProgress) || m.status == Code(Rejected))
    case Approve =>
      role == Creator && m.status == Code(Delivered)
    case Reject =>
      role == Creator && m.status == Code(Delivered)
    case AutoApprove =>
      role == Freelancer && m.status == Code(Delivered) && m.escrowedAmount > 0 && m.validationDeadline > 0
    case Dispute =>
      (role == Creator || role == Freelancer)
      && (m.status == Code(InProgress) || m.status == Code(Delivered) || m.status == Code(Rejected))
    case ResolveDispute =>
      role == Owner && m.arbiter && m.status == Code(Disputed)
    case Refund =>
      role == Creator && m.escrowedAmount > 0 && m.status != Code(Disputed) && m.status != Code(Approved)
      && m.status != Code(Refunded) && m.status != Code(Cancelled)
    case UpdateDeadline =>
      role == Creator && m.status != Code(Approved) && m.status != Code(Refunded) && m.status != Code(Cancelled)
  }

  /** Accepting is open to every role but the creator, the owner and plain
      visitors included, on a funded mission that has no freelancer yet. */
  lemma AcceptGuard(role: Role, m: Mission)
    ensures Enabled(Accept, role, Some(m))
        <==> role != Creator && m.status == Code(Funded) && IsZeroAddr(m.freelancer)
  {
  }

  /** Approving and rejecting are offered under the very same condition. */
  lemma ApproveGuardIsRejectGuard(role: Role, mission: Option<Mission>)
    ensures Enabled(Approve, role, mission) == Enabled(Reject, role, mission)
    ensures Enabled(Approve, role, mission)
        <==> mission.Some? && role == Creator && mission.value.status == Code(Delivered)
  {
  }

  /** Auto-approval is offered on a delivered, funded mission with a
      validation deadline, whatever the time: the page never compares the
      deadline with the clock. */
  lemma AutoApproveGuard(role: Role, m: Mission)
    ensures Enabled(AutoApprove, role, Some(m))
        <==> role == Freelancer && m.status == Code(Delivered) && m.escrowedAmount > 0 && m.validationDeadline > 0
  {
  }

  /** No caller is ever offered both a creator-only and a freelancer-only
      action on the same mission. */
  lemma CreatorAndFreelancerActionsExclusive(a: Action, b: Action, role: Role, mission: Option<Mission>)
    requires CreatorOnly(a) && FreelancerOnly(b)
    ensures !(Enabled(a, role, mission) && Enabled(b, role, mission))
  {
  }

  /** The owner's role shadows the others: a wallet that is the contract
      owner is never offered a creator-only or freelancer-only action, even
      on a mission it created or accepted. */
  lemma OwnerShadowsParticipantActions(a: Action, address: Option<Address>, ownerData: Option<Address>, m: Mission)
    requires HasAddress(address) && SameAddress(address.value, OwnerOrZero(ownerData))
    requires CreatorOnly(a) || FreelancerOnly(a)
    ensures !Enabled(a, ResolveRole(address, ownerData, Some(m)), Some(m))
  {
  }

  /** An action that needs a role is offered only to a wallet whose address
      matches that role's address in the mission. */
  lemma EnabledMeansAddressMatches(a: Action, address: Option<Address>, ownerData: Option<Address>, m: Mission)
    ensures var role := ResolveRole(address, ownerData, Some(m));
      Enabled(a, role, Some(m)) ==>
        && (CreatorOnly(a) ==> SameAddress(address.value, m.creator))
        && (FreelancerOnly(a) ==> SameAddress(address.value, m.freelancer) && !SameAddress(address.value, m.creator))
        && (a == ResolveDispute ==> SameAddress(address.value, OwnerOrZero(ownerData)))
  {
  }

  /* ---------------- clicks ---------------- */

  /** The messages `submit` shows instead of sending a transaction. */
  datatype UiError = NotConnected | MissionNotFound | ExtraTimeInvalid | DeadlineMissing | DeadlineInvalid

  datatype TimeUnit = Hours | Days

  function UnitSeconds(u: TimeUnit): nat {
    if u == Days then 86400 else 3600
  }

  /** `extraTimeSeconds`: the extra delivery time, given as `Number` of the
      text field (`None` for NaN or an infinity), in whole seconds. */
  function ExtraTimeSeconds(v: Option<real>, unit: TimeUnit): (r: Result<nat, UiError>)
    ensures r.Ok? <==> v.Some? && v.value > 0.0
    ensures r.Err? ==> r.error == ExtraTimeInvalid
    ensures r.Ok? ==> r.value as real <= v.value * UnitSeconds(unit) as real < r.value as real + 1.0
  {
    if v.None? || v.value <= 0.0 then Err(ExtraTimeInvalid)
    else Ok((v.value * UnitSeconds(unit) as real).Floor)
  }

  /** A whole number of hours or days converts exactly. */
  lemma ExtraTimeWhole(n: nat, unit: TimeUnit)
    requires n > 0
    ensures ExtraTimeSeconds(Some(n as real), unit) == Ok(n * UnitSeconds(unit))
  {
    var x := n as real * UnitSeconds(unit) as real;
    assert x == (n * UnitSeconds(unit)) as real;
  }

  /** Any positive amount worth less than one second passes the check and
      rounds to zero seconds (0.0001 hours, say, gives `0n`). */
  lemma SubSecondRoundsToZero(v: real, unit: TimeUnit)
    requires v > 0.0 && v * UnitSeconds(unit) as real < 1.0
    ensures ExtraTimeSeconds(Some(v), unit) == Ok(0)
  {
  }

  /** `deadlineTsFromLocal`: the new deadline field, `Date.parse` of it
      (`None` for NaN), in whole seconds. */
  function DeadlineTsFromLocal(local: string, parsedMs: Option<int>): (r: Result<int, UiError>)
    ensures local == "" ==> r == Err(DeadlineMissing)
    ensures local != "" && parsedMs.None? ==> r == Err(DeadlineInvalid)
    ensures local != "" && parsedMs.Some? ==> r.Ok?
    ensures r.Ok? ==> parsedMs.Some? && r.value * 1000 <= parsedMs.value < r.value * 1000 + 1000
  {
    if local == "" then Err(DeadlineMissing)
    else if parsedMs.None? then Err(DeadlineInvalid)
    else Ok(Clock.FloorSeconds(parsedMs.value))
  }

  /** A write to the escrow contract, with its arguments and sent value. */
  datatype ContractCall =
    | FundMission(id: nat, value: nat)
    | CancelMission(id: nat)
    | AcceptMission(id: nat)
    | DeliverMission(id: nat)
    | ApproveMission(id: nat)
    | RejectMission(id: nat, extraTime: nat, message: string)
    | AutoApproveMission(id: nat)
    | DisputeMission(id: nat, reason: string)
    | ResolveDisputeCall(id: nat, payFreelancer: bool)
    | RefundMission(id: nat)
    | UpdateDeliveryDeadline(id: nat, deadline: int)

  function ActionOf(c: ContractCall): Action {
    match c
    case FundMission(_, _) => Fund
    case CancelMission(_) => Cancel
    case AcceptMission(_) => Accept
    case DeliverMission(_) => Deliver
    case ApproveMission(_) => Approve
    case RejectMission(_, _, _) => Reject
    case AutoApproveMission(_) => AutoApprove
    case DisputeMission(_, _) => Dispute
    case ResolveDisputeCall(_, _) => ResolveDispute
    case RefundMission(_) => Refund
    case UpdateDeliveryDeadline(_, _) => UpdateDeadline
  }

  /** The page's form fields, as last typed. */
  datatype Fields = Fields(
    reason: string,
    rejectMsg: string,
    extraTimeValue: Option<real>,
    extraTimeUnit: TimeUnit,
    newDeadlineLocal: string,
    newDeadlineMs: Option<int>)

  /** A click on an action button, through `submit`: the wallet check, the
      mission check, then the call's arguments, any of which may fail. */
  function Click(a: Action, payFreelancer: bool, isConnected: bool, missionId: nat,
                 mission: Option<Mission>, f: Fields): (r: Result<ContractCall, UiError>)
    ensures !isConnected ==> r == Err(NotConnected)
    ensures isConnected && mission.None? ==> r == Err(MissionNotFound)
    ensures r.Ok? ==> r.value.id == missionId && ActionOf(r.value) == a
    ensures r.Ok? && a == Fund ==> r.value.value == mission.value.paymentAmount
    ensures r.Ok? && a == Dispute ==> r.value.reason == Trim(f.reason)
    ensures r.Ok? && a == Reject ==>
      && r.value.message == Trim(f.rejectMsg)
      && ExtraTimeSeconds(f.extraTimeValue, f.extraTimeUnit) == Ok(r.value.extraTime)
    ensures r.Ok? && a == UpdateDeadline ==>
      DeadlineTsFromLocal(f.newDeadlineLocal, f.newDeadlineMs) == Ok(r.value.deadline)
    ensures r.Ok? && a == ResolveDispute ==> r.value.payFreelancer == payFreelancer
    ensures isConnected && mission.Some? && a == Reject ==>
      var e := ExtraTimeSeconds(f.extraTimeValue, f.extraTimeUnit);
      (r.Err? <==> e.Err?) && (r.Err? ==> r.error == e.error)
    ensures isConnected && mission.Some? && a == UpdateDeadline ==>
      var d := DeadlineTsFromLocal(f.newDeadlineLocal, f.newDeadlineMs);
      (r.Err? <==> d.Err?) && (r.Err? ==> r.error == d.error)
    ensures r.Err? && isConnected && mission.Some? ==>
      || (a == Reject && r.error == ExtraTimeInvalid && ExtraTimeSeconds(f.extraTimeValue, f.extraTimeUnit).Err?)
      || (a == UpdateDeadline && r.error in {DeadlineMissing, DeadlineInvalid})
  {
    if !isConnected then Err(NotConnected)
    else if mission.None? then Err(MissionNotFound)
    else
      match a
      case Fund => Ok(FundMission(missionId, mission.value.paymentAmount))
      case Cancel => Ok(CancelMission(missionId))
      case Accept => Ok(AcceptMission(missionId))
      case Deliver => Ok(DeliverMission(missionId))
      case Approve => Ok(ApproveMission(missionId))
      case AutoApprove => Ok(AutoApproveMission(missionId))
      case Refund => Ok(RefundMission(missionId))
      case Dispute => Ok(DisputeMission(missionId, Trim(f.reason)))
      case ResolveDispute => Ok(ResolveDisputeCall(missionId, payFreelancer))
      case Reject =>
        (match ExtraTimeSeconds(f.extraTimeValue, f.extraTimeUnit)
         case Err(e) => Err(e)
         case Ok(secs) => Ok(RejectMission(missionId, secs, Trim(f.rejectMsg))))
      case UpdateDeadline =>
        (match DeadlineTsFromLocal(f.newDeadlineLocal, f.newDeadlineMs)
         case Err(e) => Err(e)
         case Ok(ts) => Ok(UpdateDeliveryDeadline(missionId, ts)))
  }

  /** A button is clickable when its guard holds and, for a dispute or a
      rejection, the trimmed text has at least three characters. */
  predicate ButtonEnabled(a: Action, role: Role, mission: Option<Mission>, f: Fields) {
    && Enabled(a, role, mission)
    && (a == Dispute ==> |Trim(f.reason)| >= 3)
    && (a == Reject ==> |Trim(f.rejectMsg)| >= 3)
  }

  /** A click on an enabled dispute button sends a reason of at least three
      characters with no surrounding whitespace. */
  lemma EnabledDisputeSendsReason(role: Role, missionId: nat, m: Mission, f: Fields, payFreelancer: bool)
    requires ButtonEnabled(Dispute, role, Some(m), f)
    ensures var r := Click(Dispute, payFreelancer, true, missionId, Some(m), f);
      r.Ok? && |r.value.reason| >= 3 && Trim(r.value.reason) == r.value.reason
  {
    TrimIdempotent(f.reason);
  }

  /** A click on an enabled reject button either fails on the extra time or
      sends a message of at least three characters with no surrounding
      whitespace. */
  lemma EnabledRejectSendsMessage(role: Role, missionId: nat, m: Mission, f: Fields, payFreelancer: bool)
    requires ButtonEnabled(Reject, role, Some(m), f)
    ensures var r := Click(Reject, payFreelancer, true, missionId, Some(m), f);
      && (r.Ok? <==> f.extraTimeValue.Some? && f.extraTimeValue.value > 0.0)
      && (r.Ok? ==> |r.value.message| >= 3 && Trim(r.value.message) == r.value.message)
  {
    TrimIdempotent(f.rejectMsg);
  }
}
