/**
 * The spin session: the page's `userState` record, the `wheel` and
 * `isSpinning` flags and the spin button, changed by one method per event.
 * Each asynchronous step is a separate event; what the server answers is a
 * parameter of the event that receives it.
 */
module Session {
  import opened Wrappers
  import opened Text
  import opened Registration
  import opened Prizes
  import Redeem

  /**
   * `updateSpinButton`: the button is disabled when no spin is left or one is
   * running; an enabled button always shows the spin count on its label.
   */
  function SpinButtonDisabled(spinsAvailable: int, isSpinning: bool): (disabled: bool)
    ensures isSpinning ==> disabled
    ensures !disabled ==> SpinButtonLabel(spinsAvailable) == SpinsLeft(spinsAvailable)
    ensures disabled && !isSpinning ==> SpinButtonLabel(spinsAvailable) == NoSpinsLeft
  {
    spinsAvailable <= 0 || isSpinning
  }

  /** The button's label: "¡Girar la Ruleta! (n)" or "Sin giros disponibles". */
  datatype SpinLabel = SpinsLeft(count: int) | NoSpinsLeft

  function SpinButtonLabel(spinsAvailable: int): (l: SpinLabel)
    ensures l.SpinsLeft? <==> spinsAvailable > 0
    ensures l.SpinsLeft? ==> l.count == spinsAvailable
  {
    if spinsAvailable > 0 then SpinsLeft(spinsAvailable) else NoSpinsLeft
  }

  /** The `userState` record. */
  datatype UserState = UserState(
    spinsAvailable: int,
    prizes: seq<Prize>,
    plate: string,
    email: string,
    phone: string,
    selectedPrize: string)

  /** Reply of the wheel-configuration endpoint: `segments`, when it is an array, by its length. */
  datatype WheelConfigResponse = ConfigRequestFailed | ConfigReceived(segmentCount: Option<nat>)

  /** Body of a 2xx spin reply; `None` for a field that is absent or not of the expected kind. */
  datatype SpinReply = SpinReply(
    prizeText: Option<string>,
    stopAngle: Option<real>,
    spinsAvailable: int,
    prizes: Option<seq<Prize>>)

  /** The spin request ends in a network error, a non-2xx status, or a reply. */
  datatype SpinResponse = SpinRequestFailed | SpinReplied(reply: SpinReply)

  /** `data.prize.text` is present and not empty, and `stopAngle` is a number. */
  predicate WellFormed(reply: SpinReply) {
    reply.prizeText.Some? && reply.prizeText.value != "" && reply.stopAngle.Some?
  }

  /** The angle passes the check `desiredStopAngle < 0 || desiredStopAngle >= 360`. */
  function StopAngleInRange(angle: real): (ok: bool)
    ensures ok <==> 0.0 <= angle < 360.0
  {
    !(angle < 0.0 || angle >= 360.0)
  }

  /** How `spinWheel` returns when a guard stops it, or the request it sends. */
  datatype SpinStart = WheelNotReady | NoSpinsAvailable | AlreadySpinning | SpinRequested(plate: string)

  datatype SpinError = RequestFailed | InvalidSpinData | StopAngleOutOfRange

  /** How the spin reply is handled: the wheel animates to the angle, or the error path runs. */
  datatype SpinResult = SpinAborted(error: SpinError) | AnimationStarted(stopAngle: real)

  /** What the prize popup shows. */
  datatype Popup = Popup(text: string, action: PopupAction, confetti: bool)

  /** The `user` object of a 2xx registration reply. */
  datatype UserRecord = UserRecord(spinsAvailable: int, prizes: seq<Prize>)

  /** A failed request, or a 2xx reply whose `user` may be missing. */
  datatype RegisterResponse = RegisterRequestFailed | RegisterReplied(user: Option<UserRecord>)

  datatype RegisterOutcome =
    | Rejected(error: ValidationError)
    | RegistrationFailed(request: RegisterRequest)
    | RegistrationSucceeded(request: RegisterRequest)

  datatype ShareResponse = ShareRequestFailed | ShareGranted(spinsAvailable: int)

  class SpinSession {
    var spinsAvailable: int
    var prizes: seq<Prize>
    var plate: string
    var email: string
    var phone: string
    var selectedPrize: string
    var wheelReady: bool
    var isSpinning: bool
    var spinButtonDisabled: bool

    function State(): UserState
      reads this
    {
      UserState(spinsAvailable, prizes, plate, email, phone, selectedPrize)
    }

    /**
     * The button always follows `updateSpinButton`'s rule, also where the
     * page writes it directly; identity fields are empty or validated. So a
     * running spin always has the button disabled, and an enabled button
     * means a spin is left and none is running.
     */
    ghost predicate Valid()
      reads this
      ensures Valid() ==> (isSpinning ==> spinButtonDisabled)
      ensures Valid() ==> (!spinButtonDisabled ==> spinsAvailable > 0 && !isSpinning)
    {
      && spinButtonDisabled == SpinButtonDisabled(spinsAvailable, isSpinning)
      && IdentityValid()
    }

    /** Only a validated plate and phone are ever stored (or none yet). */
    ghost predicate IdentityValid()
      reads this
    {
      && (plate == [] || MatchesPlatePattern(plate))
      && (phone == [] || MatchesPhonePattern(phone))
    }

    /** The page as loaded: no spins, no prizes, no user, no wheel. */
    constructor ()
      ensures Valid()
      ensures State() == UserState(0, [], "", "", "", "")
      ensures !wheelReady && !isSpinning && spinButtonDisabled
    {
      spinsAvailable, prizes := 0, [];
      plate, email, phone, selectedPrize := "", "", "", "";
      wheelReady, isSpinning := false, false;
      spinButtonDisabled := true;
    }

    /** `updateSpinButton`: re-establishes the button rule after spins or `isSpinning` change. */
    method UpdateSpinButton()
      requires IdentityValid()
      modifies this`spinButtonDisabled
      ensures Valid()
      ensures spinButtonDisabled == SpinButtonDisabled(spinsAvailable, isSpinning)
    {
      spinButtonDisabled := spinsAvailable <= 0 || isSpinning;
    }

    /** `initializeWheel`: the wheel exists once a non-empty segment list arrives. */
    method LoadWheel(response: WheelConfigResponse) returns (loaded: bool)
      requires Valid()
      modifies this
      ensures Valid()
      ensures loaded <==> response.ConfigReceived? && response.segmentCount.Some? && response.segmentCount.value > 0
      ensures wheelReady == (old(wheelReady) || loaded)
      ensures State() == old(State()) && isSpinning == old(isSpinning)
    {
      loaded := response.ConfigReceived? && response.segmentCount.Some? && response.segmentCount.value > 0;
      if loaded {
        wheelReady := true;
        UpdateSpinButton();
      }
    }

    /**
     * `spinWheel` up to the request: the three guards, in order, return
     * without changing anything; otherwise the spin starts and the button is
     * disabled.
     */
    method StartSpin() returns (r: SpinStart)
      requires Valid()
      modifies this
      ensures Valid()
      ensures r == WheelNotReady <==> !wheelReady
      ensures r == NoSpinsAvailable <==> wheelReady && spinsAvailable <= 0
      ensures r == AlreadySpinning <==> wheelReady && spinsAvailable > 0 && old(isSpinning)
      ensures r.SpinRequested? ==> r.plate == plate && isSpinning && spinButtonDisabled
      ensures !r.SpinRequested? ==> isSpinning == old(isSpinning) && spinButtonDisabled == old(spinButtonDisabled)
      ensures State() == old(State()) && wheelReady == old(wheelReady)
    {
      if !wheelReady {
        return WheelNotReady;
      }
      if spinsAvailable <= 0 {
        return NoSpinsAvailable;
      }
      if isSpinning {
        return AlreadySpinning;
      }
      isSpinning := true;
      spinButtonDisabled := true;
      r := SpinRequested(plate);
    }

    /**
     * `spinWheel` after the request. A failed request or an incomplete reply
     * changes no user state. A complete reply overwrites the spins, the prizes
     * and the selected prize, and only then is the stop angle checked. Every
     * error clears `isSpinning` and leaves the button disabled exactly when no
     * spin is left.
     */
    method OnSpinResponse(response: SpinResponse) returns (r: SpinResult)
      requires Valid()
      modifies this`spinsAvailable, this`prizes, this`selectedPrize, this`isSpinning, this`spinButtonDisabled
      ensures Valid()
      ensures wheelReady == old(wheelReady)
      ensures (response.SpinRequestFailed? || !WellFormed(response.reply)) ==> State() == old(State())
      ensures response.SpinRequestFailed? ==> r == SpinAborted(RequestFailed)
      ensures response.SpinReplied? && !WellFormed(response.reply) ==> r == SpinAborted(InvalidSpinData)
      ensures response.SpinReplied? && WellFormed(response.reply) ==>
                var reply := response.reply;
                && State() == old(State()).(spinsAvailable := reply.spinsAvailable,
                                            prizes := reply.prizes.GetOr([]),
                                            selectedPrize := reply.prizeText.value)
                && r == if StopAngleInRange(reply.stopAngle.value) then AnimationStarted(reply.stopAngle.value)
                        else SpinAborted(StopAngleOutOfRange)
      ensures r.SpinAborted? ==> !isSpinning && (spinButtonDisabled <==> spinsAvailable <= 0)
      ensures r.AnimationStarted? ==> isSpinning == old(isSpinning) && StopAngleInRange(r.stopAngle)
    {
      if response.SpinRequestFailed? {
        r := SpinAborted(RequestFailed);
      } else if !WellFormed(response.reply) {
        r := SpinAborted(InvalidSpinData);
      } else {
        var reply := response.reply;
        ApplySpinReply(reply);
        var desiredStopAngle := reply.stopAngle.value;
        if desiredStopAngle < 0.0 || desiredStopAngle >= 360.0 {
          r := SpinAborted(StopAngleOutOfRange);
        } else {
          r := AnimationStarted(desiredStopAngle);
        }
      }
      if r.SpinAborted? {
        EndSpin();
      }
    }

    /** A complete spin reply overwrites the spins, the prizes and the selected prize. */
    method ApplySpinReply(reply: SpinReply)
      requires Valid() && WellFormed(reply)
      modifies this`spinsAvailable, this`prizes, this`selectedPrize, this`spinButtonDisabled
      ensures Valid()
      ensures spinsAvailable == reply.spinsAvailable && prizes == reply.prizes.GetOr([])
      ensures selectedPrize == reply.prizeText.value
      ensures spinButtonDisabled == SpinButtonDisabled(spinsAvailable, isSpinning)
    {
      spinsAvailable := reply.spinsAvailable;
      prizes := reply.prizes.GetOr([]);
      selectedPrize := reply.prizeText.value;
      UpdateSpinButton();
    }

    /**
     * The spin ends and the button is disabled exactly when no spin is left:
     * the error path of `spinWheel` and the `finally` of `handleSpinResult`.
     */
    method EndSpin()
      requires Valid()
      modifies this`isSpinning, this`spinButtonDisabled
      ensures Valid()
      ensures !isSpinning && spinButtonDisabled == (spinsAvailable <= 0)
    {
      isSpinning := false;
      spinButtonDisabled := spinsAvailable <= 0;
    }

    /**
     * `handleSpinResult`: the popup shows the trimmed server prize, offers
     * sharing exactly for non-winning outcomes and fires confetti exactly for
     * winning ones; the `finally` block always ends the spin.
     */
    method OnAnimationComplete() returns (popup: Popup)
      requires Valid()
      modifies this`isSpinning, this`spinButtonDisabled
      ensures Valid() && !isSpinning
      ensures popup.text == Trim(selectedPrize)
      ensures popup.action == ShareForSpins <==> IsNonWinning(selectedPrize)
      ensures popup.confetti <==> !IsNonWinning(selectedPrize)
    {
      var prizeText := Trim(selectedPrize);
      SpinOutcomeRules(selectedPrize);
      popup := Popup(prizeText, PopupActionFor(prizeText), LaunchesConfetti(prizeText));
      EndSpin();
    }

    /**
     * `submitUserData`. An invalid form sends nothing and changes nothing.
     * A failed request changes nothing. A 2xx reply writes plate, e-mail and
     * phone first; with its `user` object it then replaces spins and prizes
     * and clears the selected prize.
     */
    method Register(plateInput: string, emailInput: string, phoneInput: string, response: RegisterResponse)
      returns (r: RegisterOutcome)
      requires Valid()
      modifies this
      ensures Valid()
      ensures isSpinning == old(isSpinning) && wheelReady == old(wheelReady)
      ensures var v := ValidateRegistration(plateInput, emailInput, phoneInput);
              && (v.Failure? ==> r == Rejected(v.error) && State() == old(State()))
              && (v.Success? && response.RegisterRequestFailed? ==>
                    r == RegistrationFailed(v.value) && State() == old(State()))
              && (v.Success? && response.RegisterReplied? && response.user.None? ==>
                    && r == RegistrationFailed(v.value)
                    && State() == old(State()).(plate := v.value.plate, email := v.value.email, phone := v.value.phone))
              && (v.Success? && response.RegisterReplied? && response.user.Some? ==>
                    && r == RegistrationSucceeded(v.value)
                    && State() == UserState(response.user.value.spinsAvailable, response.user.value.prizes,
                                            v.value.plate, v.value.email, v.value.phone, ""))
    {
      var v := ValidateRegistration(plateInput, emailInput, phoneInput);
      if v.Failure? {
        return Rejected(v.error);
      }
      var request := v.value;
      if response.RegisterRequestFailed? {
        return RegistrationFailed(request);
      }
      WriteIdentity(request);
      if response.user.None? {
        return RegistrationFailed(request);
      }
      ApplyUser(response.user.value);
      r := RegistrationSucceeded(request);
    }

    /**
     * The identity written by a 2xx registration reply, before `user` is read;
     * the request has passed the plate and phone checks.
     */
    method WriteIdentity(request: RegisterRequest)
      requires Valid()
      requires MatchesPlatePattern(request.plate) && MatchesPhonePattern(request.phone)
      modifies this`plate, this`email, this`phone
      ensures Valid()
      ensures plate == request.plate && email == request.email && phone == request.phone
    {
      plate := request.plate;
      email := request.email;
      phone := request.phone;
    }

    /** The reply's `user` object replaces spins and prizes and clears the selected prize. */
    method ApplyUser(user: UserRecord)
      requires Valid()
      modifies this`spinsAvailable, this`prizes, this`selectedPrize, this`spinButtonDisabled
      ensures Valid()
      ensures spinsAvailable == user.spinsAvailable && prizes == user.prizes && selectedPrize == ""
      ensures spinButtonDisabled == SpinButtonDisabled(spinsAvailable, isSpinning)
    {
      spinsAvailable := user.spinsAvailable;
      prizes := user.prizes;
      selectedPrize := "";
      UpdateSpinButton();
    }

    /**
     * `shareOnFacebook`: the bonus request carries the current plate; a grant
     * overwrites only the spin count, a refusal changes nothing.
     */
    method ShareOnFacebook(response: ShareResponse) returns (requestPlate: string)
      requires Valid()
      modifies this
      ensures Valid()
      ensures requestPlate == old(plate)
      ensures isSpinning == old(isSpinning) && wheelReady == old(wheelReady)
      ensures response.ShareGranted? ==> State() == old(State()).(spinsAvailable := response.spinsAvailable)
      ensures response.ShareRequestFailed? ==> State() == old(State())
    {
      requestPlate := plate;
      if response.ShareGranted? {
        spinsAvailable := response.spinsAvailable;
        UpdateSpinButton();
      }
    }

    /**
     * `sendWhatsAppMessage`: the message for the session's plate; because the
     * plate is empty or validated, plate and prize can be read back from it.
     */
    function RedeemText(prizeText: string): (m: string)
      reads this
      requires Valid()
      ensures Redeem.ParseRedeemMessage(m) == Some((Redeem.ShownPlate(plate), prizeText))
    {
      Redeem.RedeemMessageRoundTrip(plate, prizeText);
      Redeem.RedeemMessage(plate, prizeText)
    }
  }

  /**
   * A whole session: register " ab12c3 " and get 3 spins, spin, and the popup
   * shows the server's prize text, whatever the wheel shows.
   */
  method RegisterAndSpin(prizeText: string, stopAngle: real, prizesAfter: seq<Prize>)
    returns (popup: Popup, spinsLeft: int)
    requires prizeText != "" && 0.0 <= stopAngle < 360.0
    ensures popup.text == Trim(prizeText)
    ensures popup.confetti <==> !IsNonWinning(prizeText)
    ensures spinsLeft == 2
  {
    var session := new SpinSession();
    var loaded := session.LoadWheel(ConfigReceived(Some(8)));
    AcceptsLowerCasePlate();
    var registered := session.Register(" ab12c3 ", "a@b.pe", "987654321", RegisterReplied(Some(UserRecord(3, []))));
    assert session.spinsAvailable == 3 && session.plate == "AB12C3";
    var start := session.StartSpin();
    assert start == SpinRequested("AB12C3");
    var result := session.OnSpinResponse(SpinReplied(SpinReply(Some(prizeText), Some(stopAngle), 2, Some(prizesAfter))));
    assert result == AnimationStarted(stopAngle);
    popup := session.OnAnimationComplete();
    spinsLeft := session.spinsAvailable;
  }
}
