/**
 * The prize list: the win / non-win content convention, the de-duplication
 * loop of `updatePrizesList`, and what each row of the list shows.
 */
module Prizes {
  import opened Text
  import Countdown

  /** A prize as the server reports it; `expiry` in milliseconds since the epoch. */
  datatype Prize = Prize(text: string, expiry: int, claimed: bool, id: string)

  const KeepTrying: string := "sigue intentando"
  const ExtraSpin: string := "giro adicional"

  /**
   * The only rule that tells a non-winning outcome from a prize: the
   * lower-cased text contains "sigue intentando" or "giro adicional".
   */
  predicate IsNonWinning(text: string) {
    Contains(Lower(text), KeepTrying) || Contains(Lower(text), ExtraSpin)
  }

  /** Whether the result handler launches confetti for the popup text. */
  function LaunchesConfetti(prizeText: string): (r: bool)
    ensures r <==> !IsNonWinning(prizeText)
  {
    !Contains(Lower(prizeText), KeepTrying) && !Contains(Lower(prizeText), ExtraSpin)
  }

  /** The call to action of the prize popup (a "Cerrar" button is always added). */
  datatype PopupAction = ShareForSpins | Claim

  function PopupActionFor(prizeText: string): (a: PopupAction)
    ensures a == ShareForSpins <==> IsNonWinning(prizeText)
    ensures a == Claim <==> !IsNonWinning(prizeText)
  {
    if Contains(Lower(prizeText), KeepTrying) || Contains(Lower(prizeText), ExtraSpin) then ShareForSpins
    else Claim
  }

  /** The classification ignores letter case and surrounding whitespace. */
  lemma {:induction false} ClassificationIgnoresCaseAndPadding(text: string)
    ensures IsNonWinning(Trim(text)) == IsNonWinning(text)
    ensures IsNonWinning(Upper(text)) == IsNonWinning(text)
  {
    assert KeepTrying[0] == 's' && KeepTrying[|KeepTrying| - 1] == 'o';
    assert ExtraSpin[0] == 'g' && ExtraSpin[|ExtraSpin| - 1] == 'l';
    ContainsIgnoresTrim(text, KeepTrying);
    ContainsIgnoresTrim(text, ExtraSpin);
    LowerAfterUpper(text);
  }

  /**
   * The result handler classifies the trimmed server text; the outcome is the
   * one the untrimmed text has: confetti and the "Canjear" action exactly for
   * winning prizes, the share action exactly for non-winning ones.
   */
  lemma {:induction false} SpinOutcomeRules(selectedPrize: string)
    ensures LaunchesConfetti(Trim(selectedPrize)) <==> !IsNonWinning(selectedPrize)
    ensures PopupActionFor(Trim(selectedPrize)) == ShareForSpins <==> IsNonWinning(selectedPrize)
    ensures LaunchesConfetti(Trim(selectedPrize)) <==> PopupActionFor(Trim(selectedPrize)) == Claim
  {
    ClassificationIgnoresCaseAndPadding(selectedPrize);
  }

  /** "Sigue Intentando", in any case, is not a prize. */
  lemma KeepTryingIsNonWinning()
    ensures IsNonWinning("Sigue Intentando")
    ensures IsNonWinning("SIGUE intentando")
  {
    assert Lower("Sigue Intentando") == KeepTrying;
    assert OccursAt(Lower("Sigue Intentando"), KeepTrying, 0);
    assert Lower("SIGUE intentando") == KeepTrying;
    assert OccursAt(Lower("SIGUE intentando"), KeepTrying, 0);
  }

  /** "Radio 100% Gratis" is a prize. */
  lemma RadioIsWinning()
    ensures !IsNonWinning("Radio 100% Gratis")
  {
    var t := Lower("Radio 100% Gratis");
    assert t == "radio 100% gratis";
    forall i | 0 <= i <= |t| ensures !OccursAt(t, KeepTrying, i) && !OccursAt(t, ExtraSpin, i) {
      if i <= |t| - |KeepTrying| {
        assert t[i..i + |KeepTrying|][0] != KeepTrying[0];
      }
      if i <= |t| - |ExtraSpin| {
        assert t[i..i + |ExtraSpin|][0] != ExtraSpin[0];
      }
    }
  }

  /** What a row of the prize list offers. */
  datatype ListAction = RedeemButton | RedeemedLabel | NoAction

  /**
   * The row's action at time `now`: "Canjear" for an unclaimed, unexpired,
   * winning prize; "Canjeado" for a claimed or expired one; nothing for an
   * unclaimed, unexpired non-winning outcome.
   */
  function PrizeAction(p: Prize, now: int): (a: ListAction)
    ensures a == RedeemButton <==> !p.claimed && p.expiry > now && !IsNonWinning(p.text)
    ensures a == RedeemedLabel <==> p.claimed || p.expiry <= now
    ensures a == NoAction <==> !p.claimed && p.expiry > now && IsNonWinning(p.text)
  {
    if !p.claimed && p.expiry > now then
      if !Contains(Lower(p.text), KeepTrying) && !Contains(Lower(p.text), ExtraSpin) then RedeemButton
      else NoAction
    else RedeemedLabel
  }

  // ---------------------------------------------------------------------
  // De-duplication by normalised text

  /** The text duplicates are detected by: trimmed and lower-cased. */
  function Key(p: Prize): string {
    Lower(Trim(p.text))
  }

  /** A key has no ASCII capital and no whitespace at either end. */
  lemma KeyShape(p: Prize)
    ensures var k := Key(p);
            && (forall i :: 0 <= i < |k| ==> !('A' <= k[i] <= 'Z'))
            && (k != [] ==> !IsWhitespace(k[0]) && !IsWhitespace(k[|k| - 1]))
  {
  }

  /**
   * Texts that differ only in ASCII letter case or in surrounding whitespace
   * share their key, so the list shows only one of them.
   */
  lemma {:induction false} KeyIgnoresCaseAndPadding(p: Prize)
    ensures Key(p.(text := Upper(p.text))) == Key(p)
    ensures Key(p.(text := Trim(p.text))) == Key(p)
  {
    UpperTrimCommute(p.text);
    LowerAfterUpper(Trim(p.text));
    TrimIdempotent(p.text);
  }

  function Keys(ps: seq<Prize>): set<string> {
    set i | 0 <= i < |ps| :: Key(ps[i])
  }

  /** Reference: each prize whose key does not occur earlier in the list, in list order. */
  function UniqueByText(ps: seq<Prize>): seq<Prize>
    decreases |ps|
  {
    if ps == [] then []
    else
      var init, last := ps[..|ps| - 1], ps[|ps| - 1];
      UniqueByText(init) + if Key(last) in Keys(init) then [] else [last]
  }

  /** Position `i` holds the first prize with its key. */
  predicate IsFirstOfKey(ps: seq<Prize>, i: int)
    requires 0 <= i < |ps|
  {
    Key(ps[i]) !in Keys(ps[..i])
  }

  predicate DistinctKeys(u: seq<Prize>) {
    forall j, k :: 0 <= j < k < |u| ==> Key(u[j]) != Key(u[k])
  }

  /** `u` is `ps` at the increasing positions `idx`, each the first of its key. */
  ghost predicate PicksFirsts(u: seq<Prize>, ps: seq<Prize>, idx: seq<int>) {
    && |idx| == |u|
    && (forall k :: 0 <= k < |idx| ==> 0 <= idx[k] < |ps| && u[k] == ps[idx[k]] && IsFirstOfKey(ps, idx[k]))
    && (forall j, k :: 0 <= j < k < |idx| ==> idx[j] < idx[k])
  }

  /** `u` is a subsequence of `ps` made of first occurrences only. */
  ghost predicate IsStableDedup(u: seq<Prize>, ps: seq<Prize>) {
    exists idx :: PicksFirsts(u, ps, idx)
  }

  /** The positions `UniqueByText` keeps. */
  ghost function FirstPositions(ps: seq<Prize>): seq<int>
    decreases |ps|
  {
    if ps == [] then []
    else
      var init := ps[..|ps| - 1];
      FirstPositions(init) + if Key(ps[|ps| - 1]) in Keys(init) then [] else [|ps| - 1]
  }

  lemma KeysSnoc(ps: seq<Prize>, p: Prize)
    ensures Keys(ps + [p]) == Keys(ps) + {Key(p)}
  {
    var qs := ps + [p];
    assert Key(qs[|ps|]) == Key(p);
    forall x | x in Keys(ps) ensures x in Keys(qs) {
      var i :| 0 <= i < |ps| && Key(ps[i]) == x;
      assert qs[i] == ps[i];
    }
  }

  /** What one more element of the input adds to the reference and to the keys seen. */
  lemma PrefixStep(ps: seq<Prize>, i: int)
    requires 0 <= i < |ps|
    ensures UniqueByText(ps[..i + 1])
         == UniqueByText(ps[..i]) + if Key(ps[i]) in Keys(ps[..i]) then [] else [ps[i]]
    ensures Keys(ps[..i + 1]) == Keys(ps[..i]) + {Key(ps[i])}
  {
    assert ps[..i + 1][..i] == ps[..i];
    KeysSnoc(ps[..i], ps[i]);
    assert ps[..i] + [ps[i]] == ps[..i + 1];
  }

  /** Every key of the input is kept, and no other. */
  lemma {:induction false} UniqueByTextKeys(ps: seq<Prize>)
    ensures Keys(UniqueByText(ps)) == Keys(ps)
    decreases |ps|
  {
    if ps != [] {
      var init, last := ps[..|ps| - 1], ps[|ps| - 1];
      assert ps == init + [last];
      var u0 := UniqueByText(init);
      UniqueByTextKeys(init);
      KeysSnoc(init, last);
      if Key(last) !in Keys(init) {
        assert UniqueByText(ps) == u0 + [last];
        KeysSnoc(u0, last);
      } else {
        assert UniqueByText(ps) == u0;
      }
    }
  }

  /** No two kept prizes share a key. */
  lemma {:induction false} UniqueByTextDistinct(ps: seq<Prize>)
    ensures DistinctKeys(UniqueByText(ps))
    decreases |ps|
  {
    if ps != [] {
      var init, last := ps[..|ps| - 1], ps[|ps| - 1];
      var u0 := UniqueByText(init);
      UniqueByTextDistinct(init);
      UniqueByTextKeys(init);
      if Key(last) !in Keys(init) {
        var u := u0 + [last];
        forall j, k | 0 <= j < k < |u| ensures Key(u[j]) != Key(u[k]) {
          if k == |u0| {
            assert u[j] == u0[j];
            assert Key(u0[j]) in Keys(u0);
          } else {
            assert u[j] == u0[j] && u[k] == u0[k];
          }
        }
      }
    }
  }

  /** The kept prizes are the first occurrences, taken in list order. */
  lemma {:induction false} UniqueByTextPicksFirsts(ps: seq<Prize>)
    ensures PicksFirsts(UniqueByText(ps), ps, FirstPositions(ps))
    decreases |ps|
  {
    if ps != [] {
      var init, last := ps[..|ps| - 1], ps[|ps| - 1];
      var u0, idx0 := UniqueByText(init), FirstPositions(init);
      UniqueByTextPicksFirsts(init);
      forall k | 0 <= k < |idx0|
        ensures 0 <= idx0[k] < |ps| && u0[k] == ps[idx0[k]] && IsFirstOfKey(ps, idx0[k])
      {
        assert ps[..idx0[k]] == init[..idx0[k]];
      }
      if Key(last) !in Keys(init) {
        assert ps[..|ps| - 1] == init;
      }
    }
  }

  /**
   * The reference keeps every key of the input exactly once, at its first
   * occurrence, in list order.
   */
  lemma UniqueByTextIsStableDedup(ps: seq<Prize>)
    ensures Keys(UniqueByText(ps)) == Keys(ps)
    ensures DistinctKeys(UniqueByText(ps))
    ensures IsStableDedup(UniqueByText(ps), ps)
  {
    UniqueByTextKeys(ps);
    UniqueByTextDistinct(ps);
    UniqueByTextPicksFirsts(ps);
  }

  lemma TrimExamples()
    ensures Trim("Radio") == "Radio" && Trim("Cap") == "Cap" && Trim("radio ") == "radio"
  {
    assert SkipForward("radio ", 0) == 0;
    assert SkipBackward("radio ", 0, 5) == 5;
    assert SkipBackward("radio ", 0, 6) == 5;
  }

  lemma ExampleKeys(t1: int, t2: int, t3: int)
    ensures Key(Prize("Radio", t1, false, "1")) == "radio"
    ensures Key(Prize("radio ", t2, false, "2")) == "radio"
    ensures Key(Prize("Cap", t3, false, "3")) == "cap"
  {
    TrimExamples();
    assert Lower("Radio") == "radio";
    assert Lower("radio") == "radio";
    assert Lower("Cap") == "cap";
  }

  /** `updatePrizesList`: `[Radio, "radio ", Cap]` is shown as `[Radio, Cap]`. */
  lemma DedupExample(t1: int, t2: int, t3: int)
    ensures var radio, radio2, cap := Prize("Radio", t1, false, "1"), Prize("radio ", t2, false, "2"), Prize("Cap", t3, false, "3");
            UniqueByText([radio, radio2, cap]) == [radio, cap]
  {
    var radio, radio2, cap := Prize("Radio", t1, false, "1"), Prize("radio ", t2, false, "2"), Prize("Cap", t3, false, "3");
    ExampleKeys(t1, t2, t3);
    var ps := [radio, radio2, cap];
    assert ps[..2] == [radio, radio2];
    assert [radio, radio2][..1] == [radio];
    assert [radio][..0] == [];
    assert UniqueByText([radio]) == [radio];
    assert Keys([radio]) == {"radio"};
    assert UniqueByText([radio, radio2]) == [radio];
    KeysSnoc([radio], radio2);
    assert Keys([radio, radio2]) == {"radio"};
    assert "cap" != "radio";
  }

  /**
   * The `forEach` loop of `updatePrizesList`: walk the list, keep a prize when
   * its key has not been seen, and remember the key.
   */
  method DedupPrizes(prizes: seq<Prize>) returns (unique: seq<Prize>)
    ensures unique == UniqueByText(prizes)
    ensures Keys(unique) == Keys(prizes)
    ensures DistinctKeys(unique)
    ensures IsStableDedup(unique, prizes)
  {
    unique := [];
    var prizeTexts: set<string> := {};
    for i := 0 to |prizes|
      invariant unique == UniqueByText(prizes[..i])
      invariant prizeTexts == Keys(prizes[..i])
    {
      var normalizedText := Lower(Trim(prizes[i].text));
      PrefixStep(prizes, i);
      if normalizedText !in prizeTexts {
        unique := unique + [prizes[i]];
        prizeTexts := prizeTexts + {normalizedText};
      }
    }
    assert prizes[..|prizes|] == prizes;
    UniqueByTextIsStableDedup(prizes);
  }

  /** One row of the rendered list. */
  datatype PrizeRow = PrizeRow(prize: Prize, countdown: Countdown.Display, action: ListAction)

  /** The row for one prize at time `now`: its first countdown tick and its action. */
  function RowFor(p: Prize, now: int): (row: PrizeRow)
    ensures row.prize == p
    ensures row.countdown == Countdown.Tick(p.expiry, now)
    ensures row.action == PrizeAction(p, now)
  {
    PrizeRow(p, Countdown.Tick(p.expiry, now), PrizeAction(p, now))
  }

  /**
   * What a row offers when the list is rendered at `now`: a redeem button
   * exactly for an unclaimed, unexpired, winning prize, and a first countdown
   * tick of "Expirado" only next to "Canjeado".
   */
  lemma RowRules(p: Prize, now: int)
    ensures RowFor(p, now).action == RedeemButton <==> !p.claimed && p.expiry > now && !IsNonWinning(p.text)
    ensures RowFor(p, now).countdown.Expired? ==> RowFor(p, now).action == RedeemedLabel
  {
  }

  /**
   * `updatePrizesList` at time `now`: one row per de-duplicated prize, in
   * order; an empty list ("No tienes premios.") gives no rows.
   */
  method UpdatePrizesList(prizes: seq<Prize>, now: int) returns (rows: seq<PrizeRow>)
    ensures |rows| == |UniqueByText(prizes)|
    ensures prizes == [] ==> rows == []
    ensures forall k :: 0 <= k < |rows| ==> rows[k] == RowFor(UniqueByText(prizes)[k], now)
    ensures forall j, k :: 0 <= j < k < |rows| ==> Key(rows[j].prize) != Key(rows[k].prize)
  {
    rows := [];
    if |prizes| == 0 {
      return;
    }
    var uniquePrizes := DedupPrizes(prizes);
    rows := RenderRows(uniquePrizes, now);
  }

  /** The `forEach` that appends one row per prize, in order. */
  method RenderRows(uniquePrizes: seq<Prize>, now: int) returns (rows: seq<PrizeRow>)
    ensures |rows| == |uniquePrizes|
    ensures forall k :: 0 <= k < |rows| ==> rows[k] == RowFor(uniquePrizes[k], now)
    ensures forall k :: 0 <= k < |rows| ==> rows[k].prize == uniquePrizes[k]
  {
    rows := [];
    for k := 0 to |uniquePrizes|
      invariant |rows| == k
      invariant forall m :: 0 <= m < k ==> rows[m] == RowFor(uniquePrizes[m], now)
    {
      rows := rows + [RowFor(uniquePrizes[k], now)];
    }
  }
}
