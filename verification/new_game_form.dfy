/**
  The new-game form: currency, initial balance and cross-start bonus (text
  fields of a number input) and the number of players.  Submitting runs
  `validateForm`; typing into a number field strips its leading zeros.
*/
module NewGameForm {
  import opened Wrappers
  import opened Text

  const Currencies: seq<string> := ["PLN", "EUR", "USD"]

  const CurrencyError: string := "Nieprawidłowa waluta."
  const BalanceError: string := "Wprowadź wartość pomiędzy 1 a 10000."
  const BonusError: string := "Wprowadź wartość pomiędzy 0 a 1000."
  const PlayerCountError: string := "Nieprawidłowa liczba graczy."

  /** The four fields of the form. */
  datatype FormState = FormState(
    currency: string,
    initialBalance: string,
    crossStartBonus: string,
    numberOfPlayers: int)

  /** The values the form opens with. */
  const DefaultForm: FormState := FormState("PLN", "1500", "200", 4)

  /** One optional message per field. */
  datatype FormErrors = FormErrors(
    currency: Option<string>,
    initialBalance: Option<string>,
    crossStartBonus: Option<string>,
    numberOfPlayers: Option<string>)

  const NoErrors: FormErrors := FormErrors(None, None, None, None)

  /** The errors `validateForm` stores and the boolean it returns. */
  datatype Validation = Validation(errors: FormErrors, ok: bool)

  /** `text === "" || Number(text) < lo || Number(text) > hi`; a text that
      is not a number passes both comparisons. */
  function OutOfRange(text: string, lo: int, hi: int): (out: bool)
    ensures text == "" ==> out
    ensures text != "" && AllDigits(text) ==> (out <==> DigitsValue(text) < lo || DigitsValue(text) > hi)
    ensures ToNumber(text).NaN? ==> !out
  {
    text == "" || Below(ToNumber(text), lo) || Above(ToNumber(text), hi)
  }

  /** `-` followed by at least one digit. */
  predicate IsNegativeText(t: string) {
    |t| >= 2 && t[0] == '-' && AllDigits(t[1..])
  }

  /** `validateForm`: one message per failing field, and success exactly
      when no message was set.  For digit texts the range checks are the
      stated ranges; a negative balance always fails; a negative bonus fails
      unless it is zero; a text that is not a number is let through. */
  function ValidateForm(f: FormState): (v: Validation)
    ensures v.errors.currency == None <==> f.currency == "PLN" || f.currency == "EUR" || f.currency == "USD"
    ensures v.errors.currency.Some? ==> v.errors.currency.value == CurrencyError
    ensures AllDigits(f.initialBalance) ==>
              (v.errors.initialBalance == None <==> f.initialBalance != "" && 1 <= DigitsValue(f.initialBalance) <= 10000)
    ensures IsNegativeText(f.initialBalance) ==> v.errors.initialBalance.Some?
    ensures ToNumber(f.initialBalance).NaN? ==> v.errors.initialBalance == None
    ensures v.errors.initialBalance.Some? ==> v.errors.initialBalance.value == BalanceError
    ensures AllDigits(f.crossStartBonus) ==>
              (v.errors.crossStartBonus == None <==> f.crossStartBonus != "" && DigitsValue(f.crossStartBonus) <= 1000)
    ensures IsNegativeText(f.crossStartBonus) ==>
              (v.errors.crossStartBonus == None <==> DigitsValue(f.crossStartBonus[1..]) == 0)
    ensures ToNumber(f.crossStartBonus).NaN? ==> v.errors.crossStartBonus == None
    ensures v.errors.crossStartBonus.Some? ==> v.errors.crossStartBonus.value == BonusError
    ensures v.errors.numberOfPlayers == None <==> 2 <= f.numberOfPlayers <= 6
    ensures v.errors.numberOfPlayers.Some? ==> v.errors.numberOfPlayers.value == PlayerCountError
    ensures v.ok <==> v.errors == NoErrors
  {
    var errors := FormErrors(
      if f.currency !in Currencies then Some(CurrencyError) else None,
      if OutOfRange(f.initialBalance, 1, 10000) then Some(BalanceError) else None,
      if OutOfRange(f.crossStartBonus, 0, 1000) then Some(BonusError) else None,
      if f.numberOfPlayers < 2 || f.numberOfPlayers > 6 then Some(PlayerCountError) else None);
    Validation(errors, errors == NoErrors)
  }

  /** The form opens with values it accepts. */
  lemma DefaultFormIsValid()
    ensures ValidateForm(DefaultForm).ok
  {
    assert DigitsValue("1500") == 1500 by {
      assert DigitsValue("1") == 1 by { assert "1"[..0] == ""; }
      assert DigitsValue("15") == 15 by { assert "15"[..1] == "1"; }
      assert DigitsValue("150") == 150 by { assert "150"[..2] == "15"; }
      assert "1500"[..3] == "150";
    }
    assert DigitsValue("200") == 200 by {
      assert DigitsValue("2") == 2 by { assert "2"[..0] == ""; }
      assert DigitsValue("20") == 20 by { assert "20"[..1] == "2"; }
      assert "200"[..2] == "20";
    }
  }

  // ---------------------------------------------------------------------
  // `value.replace(/^0+(?=\d)/, "")`

  /** The number of `0` characters at the front of `s`. */
  function LeadingZeros(s: string): (z: nat)
    ensures z <= |s|
    ensures forall i :: 0 <= i < z ==> s[i] == '0'
    ensures z < |s| ==> s[z] != '0'
    decreases |s|
  {
    if s != [] && s[0] == '0' then 1 + LeadingZeros(s[1..]) else 0
  }

  /** The regular expression removes the longest run of leading zeros that
      is still followed by a digit: all of them when a digit follows, all
      but the last otherwise. */
  function StripLeadingZeros(s: string): (r: string)
    ensures |r| <= |s| && r == s[|s| - |r|..]
    ensures forall i :: 0 <= i < |s| - |r| ==> s[i] == '0'
    ensures !(|r| >= 2 && r[0] == '0' && IsDigit(r[1]))
    ensures s != "" ==> r != ""
    ensures |r| < |s| ==> IsDigit(r[0])
  {
    var z := LeadingZeros(s);
    if z == 0 then s
    else if z < |s| && IsDigit(s[z]) then s[z..]
    else s[z - 1..]
  }

  /** Stripping twice is stripping once. */
  lemma StripIdempotent(s: string)
    ensures StripLeadingZeros(StripLeadingZeros(s)) == StripLeadingZeros(s)
  {
    var r := StripLeadingZeros(s);
    if r != [] && r[0] == '0' {
      assert LeadingZeros(r) == 1 by {
        if |r| > 1 { assert LeadingZeros(r[1..]) == 0; }
      }
    }
  }

  /** Removing leading zeros from a digit string keeps its value. */
  lemma {:induction false} DigitsValueDropZeros(s: string, k: nat)
    requires AllDigits(s) && k <= |s|
    requires forall i :: 0 <= i < k ==> s[i] == '0'
    ensures AllDigits(s[k..]) && DigitsValue(s[k..]) == DigitsValue(s)
    decreases k
  {
    if k > 0 {
      DigitsValueDropZeros(s, k - 1);
      assert s[k - 1..] == "0" + s[k..];
      DigitsValueLeadingZero(s[k..]);
    }
  }

  /** For the texts a number field produces, the strip never changes what
      `Number` reads from the field. */
  lemma StripKeepsNumber(s: string)
    ensures ToNumber(StripLeadingZeros(s)) == ToNumber(s)
  {
    var r := StripLeadingZeros(s);
    var k := |s| - |r|;
    if k > 0 {
      assert s[0] == '0';
      if AllDigits(s) {
        DigitsValueDropZeros(s, k);
      } else {
        var j :| 0 <= j < |s| && !IsDigit(s[j]);
        assert j >= k;
        assert r[j - k] == s[j];
        assert !AllDigits(r);
        assert r[0] == s[k];
      }
    }
  }

  /** Stripped digit text keeps its value and is digit text. */
  lemma StripKeepsDigits(s: string)
    requires AllDigits(s)
    ensures AllDigits(StripLeadingZeros(s))
    ensures DigitsValue(StripLeadingZeros(s)) == DigitsValue(s)
  {
    DigitsValueDropZeros(s, |s| - |StripLeadingZeros(s)|);
  }

  /** For the texts a number field produces, the strip never changes the
      outcome of validation. */
  lemma StripKeepsValidation(f: FormState)
    ensures ValidateForm(f.(initialBalance := StripLeadingZeros(f.initialBalance),
                            crossStartBonus := StripLeadingZeros(f.crossStartBonus))) == ValidateForm(f)
  {
    StripKeepsNumber(f.initialBalance);
    StripKeepsNumber(f.crossStartBonus);
  }
}
