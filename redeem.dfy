/**
 * The text of the WhatsApp redeem message (`sendWhatsAppMessage`), before it
 * is URL-encoded: the owner's plate, or "XXXXXX" when none is registered,
 * followed by the prize text.
 */
module Redeem {
  import opened Wrappers
  import Registration

  const PlatePlaceholder: string := "XXXXXX"
  const Opening: string := "SOY EL DUEÑO DEL VEHICULO "
  const Middle: string := " Y DESEO CANJEAR EL PREMIO "

  /** `userState.plate || "XXXXXX"`: the empty plate is the only falsy one. */
  function ShownPlate(plate: string): (shown: string)
    ensures shown != []
    ensures plate != [] ==> shown == plate
    ensures plate == [] ==> shown == PlatePlaceholder
  {
    if plate == "" then PlatePlaceholder else plate
  }

  /** The message text: the opening, the shown plate, the middle and the prize text. */
  function RedeemMessage(plate: string, prizeText: string): (m: string)
    ensures |m| == |Opening| + |ShownPlate(plate)| + |Middle| + |prizeText|
    ensures m[..|Opening|] == Opening
    ensures m[|Opening|..|Opening| + |ShownPlate(plate)|] == ShownPlate(plate)
    ensures m[|Opening| + |ShownPlate(plate)|..|m| - |prizeText|] == Middle
    ensures m[|m| - |prizeText|..] == prizeText
  {
    Opening + ShownPlate(plate) + Middle + prizeText
  }

  /** Reads the plate and the prize text back out of a message with a six-character plate. */
  function ParseRedeemMessage(m: string): Option<(string, string)> {
    var plateStart := |Opening|;
    var plateEnd := plateStart + 6;
    var prizeStart := plateEnd + |Middle|;
    if |m| >= prizeStart && m[..plateStart] == Opening && m[plateEnd..prizeStart] == Middle
    then Some((m[plateStart..plateEnd], m[prizeStart..]))
    else None
  }

  /**
   * For any plate the session can hold (none, or a registered one), the
   * message determines the shown plate and the prize text.
   */
  lemma RedeemMessageRoundTrip(plate: string, prizeText: string)
    requires plate == [] || Registration.MatchesPlatePattern(plate)
    ensures ParseRedeemMessage(RedeemMessage(plate, prizeText)) == Some((ShownPlate(plate), prizeText))
  {
  }

  /** Two redeem messages are equal only for the same shown plate and prize text. */
  lemma RedeemMessageInjective(plate1: string, text1: string, plate2: string, text2: string)
    requires plate1 == [] || Registration.MatchesPlatePattern(plate1)
    requires plate2 == [] || Registration.MatchesPlatePattern(plate2)
    requires RedeemMessage(plate1, text1) == RedeemMessage(plate2, text2)
    ensures ShownPlate(plate1) == ShownPlate(plate2) && text1 == text2
  {
  }
}
