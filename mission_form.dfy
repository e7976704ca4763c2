/** The mission creation form: the checks run before `addMission` is sent,
    in the order they are run, and the arguments then sent. The wallet
    state, `parseEther` of the amount field, `Date.parse` of the deadline
    field and `Date.now()` are inputs. */
module MissionForm {

  import opened Wrappers
  import opened Text
  import Clock

  /** The message the form shows instead of sending, one per check. */
  datatype FormError =
    | WalletNotConnected
    | TitleTooShort
    | DescriptionTooShort
    | AmountInvalid
    | AmountNotPositive
    | DeadlineInvalid
    | DeadlineNotInFuture

  /** The form fields. `paymentWei` is `parseEther` of the amount field
      (`None` when it throws); `deadlineMs` is `Date.parse` of the deadline
      field (`None` for NaN). */
  datatype Form = Form(
    title: string,
    description: string,
    paymentWei: Option<int>,
    deadlineMs: Option<int>,
    arbiter: bool,
    cancellationType: bool)

  /** What `validate` returns. */
  datatype Validated = Validated(paymentWei: int, deadlineTs: int)

  const MinTitle: nat := 3
  const MinDescription: nat := 10

  /** `isConnected && address`: a wallet is connected and reports an
      address. */
  predicate WalletReady(isConnected: bool, address: Option<string>) {
    isConnected && address.Some? && address.value != ""
  }

  /** The checks of `validate` as a table, in the order they run: each
      pairs the condition that must hold with the message shown when it
      does not. A check is only reached when every earlier one passed. */
  function Checks(isConnected: bool, address: Option<string>, f: Form, nowMs: int): seq<(bool, FormError)> {
    [ (WalletReady(isConnected, address), WalletNotConnected),
      (|Trim(f.title)| >= MinTitle, TitleTooShort),
      (|Trim(f.description)| >= MinDescription, DescriptionTooShort),
      (f.paymentWei.Some?, AmountInvalid),
      (f.paymentWei.None? || f.paymentWei.value > 0, AmountNotPositive),
      (f.deadlineMs.Some?, DeadlineInvalid),
      (f.deadlineMs.None? || Clock.FloorSeconds(f.deadlineMs.value) > Clock.FloorSeconds(nowMs), DeadlineNotInFuture) ]
  }

  /** The message of the first check from index `i` on that fails, if
      any. */
  function FirstFailure(checks: seq<(bool, FormError)>, i: nat): Option<FormError>
    requires i <= |checks|
    decreases |checks| - i
  {
    if i == |checks| then None
    else if !checks[i].0 then Some(checks[i].1)
    else FirstFailure(checks, i + 1)
  }

  /** `validate`: a message when some check fails, otherwise the amount in
      wei and the deadline in whole seconds, which lies after the current
      second. */
  function Validate(isConnected: bool, address: Option<string>, f: Form, nowMs: int): (r: Result<Validated, FormError>)
    ensures !WalletReady(isConnected, address) ==> r == Err(WalletNotConnected)
    ensures r.Ok? ==>
      && |Trim(f.title)| >= MinTitle && |Trim(f.description)| >= MinDescription
      && f.paymentWei == Some(r.value.paymentWei) && r.value.paymentWei > 0
      && f.deadlineMs.Some?
      && r.value.deadlineTs * 1000 <= f.deadlineMs.value < r.value.deadlineTs * 1000 + 1000
      && r.value.deadlineTs > Clock.FloorSeconds(nowMs)
  {
    var t := Trim(f.title);
    var d := Trim(f.description);
    if !WalletReady(isConnected, address) then Err(WalletNotConnected)
    else if |t| < MinTitle then Err(TitleTooShort)
    else if |d| < MinDescription then Err(DescriptionTooShort)
    else if f.paymentWei.None? then Err(AmountInvalid)
    else if f.paymentWei.value <= 0 then Err(AmountNotPositive)
    else if f.deadlineMs.None? then Err(DeadlineInvalid)
    else
      var deadlineSeconds := Clock.FloorSeconds(f.deadlineMs.value);
      var nowSeconds := Clock.FloorSeconds(nowMs);
      if deadlineSeconds <= nowSeconds then Err(DeadlineNotInFuture)
      else Ok(Validated(f.paymentWei.value, deadlineSeconds))
  }

  /** `validate` reports exactly the first failing check of the table, and
      succeeds exactly when every check passes. */
  lemma ValidateReportsFirstFailure(isConnected: bool, address: Option<string>, f: Form, nowMs: int)
    ensures var r, cs := Validate(isConnected, address, f, nowMs), Checks(isConnected, address, f, nowMs);
      && (r.Err? ==> FirstFailure(cs, 0) == Some(r.error))
      && (r.Ok? <==> FirstFailure(cs, 0) == None)
  {
    var cs := Checks(isConnected, address, f, nowMs);
    var r := Validate(isConnected, address, f, nowMs);
    FirstFailureAt(cs, 0);
    if cs[0].0 {
      FirstFailureAt(cs, 1);
      if cs[1].0 {
        FirstFailureAt(cs, 2);
        if cs[2].0 {
          FirstFailureAt(cs, 3);
          if cs[3].0 {
            FirstFailureAt(cs, 4);
            if cs[4].0 {
              FirstFailureAt(cs, 5);
              if cs[5].0 {
                FirstFailureAt(cs, 6);
                FirstFailureAt(cs, 7);
              }
            }
          }
        }
      }
    }
  }

  lemma FirstFailureAt(cs: seq<(bool, FormError)>, i: nat)
    requires i <= |cs|
    ensures FirstFailure(cs, i) == if i == |cs| then None else if !cs[i].0 then Some(cs[i].1) else FirstFailure(cs, i + 1)
  {
  }

  /** Surrounding whitespace in the title and description never changes the
      outcome: the form validates exactly as its trimmed version does. */
  lemma ValidateIgnoresSurroundingSpace(isConnected: bool, address: Option<string>, f: Form, nowMs: int)
    ensures Validate(isConnected, address, f.(title := Trim(f.title), description := Trim(f.description)), nowMs)
         == Validate(isConnected, address, f, nowMs)
  {
    TrimIdempotent(f.title);
    TrimIdempotent(f.description);
  }

  /** A form that passes now also passed at any earlier moment, with the
      same result: the clock only ever turns a valid deadline stale. */
  lemma ValidateEarlier(isConnected: bool, address: Option<string>, f: Form, nowMs: int, earlierMs: int)
    requires earlierMs <= nowMs
    requires Validate(isConnected, address, f, nowMs).Ok?
    ensures Validate(isConnected, address, f, earlierMs) == Validate(isConnected, address, f, nowMs)
  {
    Clock.FloorSecondsMonotonic(earlierMs, nowMs);
  }

  /** The arguments of the `addMission` call. */
  datatype AddMissionArgs = AddMissionArgs(
    title: string,
    description: string,
    paymentAmount: int,
    deliveryDeadline: int,
    arbiter: bool,
    cancellationType: bool)

  /** `onSubmit`: validate, then send the trimmed texts with the validated
      amount and deadline and the two flags as they are. */
  function Submit(isConnected: bool, address: Option<string>, f: Form, nowMs: int): (r: Result<AddMissionArgs, FormError>)
    ensures var v := Validate(isConnected, address, f, nowMs);
      && (r.Ok? <==> v.Ok?)
      && (r.Err? ==> r.error == v.error)
      && (r.Ok? ==>
        && r.value.title == Trim(f.title) && r.value.description == Trim(f.description)
        && r.value.paymentAmount == v.value.paymentWei && r.value.deliveryDeadline == v.value.deadlineTs
        && r.value.arbiter == f.arbiter && r.value.cancellationType == f.cancellationType)
  {
    match Validate(isConnected, address, f, nowMs)
    case Err(e) => Err(e)
    case Ok(v) =>
      Ok(AddMissionArgs(Trim(f.title), Trim(f.description), v.paymentWei, v.deadlineTs, f.arbiter, f.cancellationType))
  }

  /** What is sent meets the contract's creation requirements as the form
      sees them: trimmed texts of at least 3 and 10 characters, a positive
      amount, a deadline after the current second. */
  lemma SubmitSendsValidArgs(isConnected: bool, address: Option<string>, f: Form, nowMs: int)
    requires Submit(isConnected, address, f, nowMs).Ok?
    ensures var a := Submit(isConnected, address, f, nowMs).value;
      && |a.title| >= MinTitle && Trim(a.title) == a.title
      && |a.description| >= MinDescription && Trim(a.description) == a.description
      && a.paymentAmount > 0 && a.deliveryDeadline > Clock.FloorSeconds(nowMs)
  {
    TrimIdempotent(f.title);
    TrimIdempotent(f.description);
  }

  /** Filling the form again with the texts that were sent sends the very
      same call, and a form that was refused is refused again with the same
      message. */
  lemma ResubmitTrimmed(isConnected: bool, address: Option<string>, f: Form, nowMs: int)
    ensures var g := f.(title := Trim(f.title), description := Trim(f.description));
      Submit(isConnected, address, g, nowMs) == Submit(isConnected, address, f, nowMs)
  {
    var g := f.(title := Trim(f.title), description := Trim(f.description));
    TrimIdempotent(f.title);
    TrimIdempotent(f.description);
    ValidateIgnoresSurroundingSpace(isConnected, address, f, nowMs);
    assert Validate(isConnected, address, g, nowMs) == Validate(isConnected, address, f, nowMs);
  }

  /* ---------------- default deadline text ---------------- */

  /** `pad`: `String(n).padStart(2, "0")`. The digits still read as `n`. */
  function Pad(n: nat): (r: string)
    ensures |r| >= 2 && AllDigits(r) && DigitsValue(r) == n
    ensures n < 100 ==> |r| == 2
    ensures n >= 10 ==> r == NatToString(n)
  {
    var s := NatToString(n);
    NatToStringRoundTrip(n);
    LeadingZero(s);
    NatToStringShort(n);
    if |s| < 2 then "0" + s else s
  }

  lemma {:induction false} NatToStringShort(n: nat)
    ensures n < 10 <==> |NatToString(n)| == 1
    ensures 10 <= n < 100 ==> |NatToString(n)| == 2
    ensures 100 <= n < 1000 ==> |NatToString(n)| == 3
    ensures 1000 <= n < 10000 ==> |NatToString(n)| == 4
    decreases n
  {
    if n >= 10 {
      NatToStringShort(n / 10);
    }
  }

  /** The text `nowPlusHours` builds from a date's local fields:
      `YYYY-MM-DDTHH:mm`, the `datetime-local` input format. */
  function DateTimeLocal(year: nat, month0: nat, day: nat, hours: nat, minutes: nat): string {
    NatToString(year) + "-" + Pad(month0 + 1) + "-" + Pad(day) + "T" + Pad(hours) + ":" + Pad(minutes)
  }

  /** For a four-digit year and in-range fields, every part has its fixed
      width and the separators sit at their fixed places. */
  lemma DateTimeLocalShape(year: nat, month0: nat, day: nat, hours: nat, minutes: nat)
    requires 1000 <= year < 10000 && month0 < 12 && 1 <= day <= 31 && hours < 24 && minutes < 60
    ensures var r := DateTimeLocal(year, month0, day, hours, minutes);
      && |r| == 16
      && r[4] == '-' && r[7] == '-' && r[10] == 'T' && r[13] == ':'
      && r[..4] == NatToString(year)
      && r[5..7] == Pad(month0 + 1) && r[8..10] == Pad(day) && r[11..13] == Pad(hours) && r[14..] == Pad(minutes)
  {
    NatToStringShort(year);
    Layout(NatToString(year), Pad(month0 + 1), Pad(day), Pad(hours), Pad(minutes));
  }

  /** Where the parts of `y-mo-dTh:mi` land when the year has four
      characters and every other part two. */
  lemma Layout(y: string, mo: string, d: string, h: string, mi: string)
    requires |y| == 4 && |mo| == 2 && |d| == 2 && |h| == 2 && |mi| == 2
    ensures var r := y + "-" + mo + "-" + d + "T" + h + ":" + mi;
      && |r| == 16
      && r[4] == '-' && r[7] == '-' && r[10] == 'T' && r[13] == ':'
      && r[..4] == y && r[5..7] == mo && r[8..10] == d && r[11..13] == h && r[14..] == mi
  {
    var p := y + "-" + mo + "-" + d + "T";
    var r := y + "-" + mo + "-" + d + "T" + h + ":" + mi;
    assert |p| == 11 && r == p + h + ":" + mi;
    assert r[..4] == y;
    assert r[5..7] == mo;
    assert r[8..10] == d;
    assert r[11..13] == h;
    assert r[14..] == mi;
  }
}
