/**
 * The threshold dialog's rules: which (exceeds, demonstrates) pairs are valid,
 * which pair the dialog starts from, and how its buttons and text fields change
 * the pair. The widgets themselves are not modelled; each event handler is a method.
 */
module Thresholds {
  import opened Wrappers
  import opened Associations

  /** areThresholdsValid: both in [0, 1] and demonstrates strictly below exceeds. */
  predicate AreThresholdsValid(exceeds: real, demonstrates: real)
  {
    if exceeds > 1.0 || exceeds < 0.0 then false
    else if demonstrates > 1.0 || demonstrates < 0.0 then false
    else if demonstrates >= exceeds then false
    else true
  }

  /** Each of the three guards rejects on its own, and a pair passing all three is valid. */
  lemma ValidIff(exceeds: real, demonstrates: real)
    ensures (exceeds > 1.0 || exceeds < 0.0) ==> !AreThresholdsValid(exceeds, demonstrates)
    ensures (demonstrates > 1.0 || demonstrates < 0.0) ==> !AreThresholdsValid(exceeds, demonstrates)
    ensures demonstrates >= exceeds ==> !AreThresholdsValid(exceeds, demonstrates)
    ensures AreThresholdsValid(exceeds, demonstrates) <==> 0.0 <= demonstrates < exceeds <= 1.0
  {
  }

  /** The default pair is valid. */
  lemma DefaultsValid()
    ensures AreThresholdsValid(DEFAULT_EXCEEDS_THRESHOLD, DEFAULT_DEMONSTRATES_THRESHOLD)
  {
  }

  /** The starting pair: the association's own thresholds when valid, else the defaults. */
  function Seed(a: OutcomeAssociation): (pair: (real, real))
    ensures AreThresholdsValid(pair.0, pair.1)
    ensures AreThresholdsValid(a.exceeds, a.demonstrates) ==> pair == (a.exceeds, a.demonstrates)
    ensures !AreThresholdsValid(a.exceeds, a.demonstrates) ==>
              pair == (DEFAULT_EXCEEDS_THRESHOLD, DEFAULT_DEMONSTRATES_THRESHOLD)
  {
    if AreThresholdsValid(a.exceeds, a.demonstrates) then (a.exceeds, a.demonstrates)
    else (DEFAULT_EXCEEDS_THRESHOLD, DEFAULT_DEMONSTRATES_THRESHOLD)
  }

  /** A text field's value after it loses focus: the parsed double, or 0 when the text does not parse. */
  function FieldValue(parsed: Option<real>): (v: real)
    ensures parsed.Some? ==> v == parsed.value
    ensures parsed.None? ==> v == 0.0
  {
    if parsed.Some? then parsed.value else 0.0
  }

  /** The dialog's state: the pair being edited and whether it was closed by Done or Use Defaults. */
  class ThresholdDialog {
    var exceedsThreshold: real
    var demonstratesThreshold: real
    var exitOkay: bool
    const association: OutcomeAssociation

    /** The constructor seeds the pair from the association. */
    constructor (association: OutcomeAssociation)
      ensures this.association == association
      ensures (exceedsThreshold, demonstratesThreshold) == Seed(association)
      ensures !exitOkay
    {
      this.association := association;
      var pair := Seed(association);
      exceedsThreshold := pair.0;
      demonstratesThreshold := pair.1;
      exitOkay := false;
    }

    /** Done: refused (nothing changes) while the pair is invalid, else the dialog closes accepted. */
    method Done() returns (closed: bool)
      modifies this
      ensures closed <==> AreThresholdsValid(old(exceedsThreshold), old(demonstratesThreshold))
      ensures exitOkay == (old(exitOkay) || closed)
      ensures exceedsThreshold == old(exceedsThreshold) && demonstratesThreshold == old(demonstratesThreshold)
    {
      if !AreThresholdsValid(exceedsThreshold, demonstratesThreshold) {
        return false;
      }
      exitOkay := true;
      closed := true;
    }

    /** Use Defaults: both fields get the default exceeds threshold and the dialog closes accepted. */
    method UseDefaults()
      modifies this
      ensures exceedsThreshold == DEFAULT_EXCEEDS_THRESHOLD && demonstratesThreshold == DEFAULT_EXCEEDS_THRESHOLD
      ensures exitOkay
    {
      exceedsThreshold := DEFAULT_EXCEEDS_THRESHOLD;
      demonstratesThreshold := DEFAULT_EXCEEDS_THRESHOLD;
      exitOkay := true;
    }

    /** Use Defaults as evidently intended: each field gets its own default, a pair the dialog accepts. */
    method UseDefaultPair()
      modifies this
      ensures exceedsThreshold == DEFAULT_EXCEEDS_THRESHOLD && demonstratesThreshold == DEFAULT_DEMONSTRATES_THRESHOLD
      ensures AreThresholdsValid(exceedsThreshold, demonstratesThreshold)
      ensures exitOkay
    {
      exceedsThreshold := DEFAULT_EXCEEDS_THRESHOLD;
      demonstratesThreshold := DEFAULT_DEMONSTRATES_THRESHOLD;
      exitOkay := true;
      DefaultsValid();
    }

    /** The exceeds field loses focus with text that parses to `parsed` (None: it does not parse). */
    method ExceedsFocusLost(parsed: Option<real>)
      modifies this
      ensures exceedsThreshold == FieldValue(parsed)
      ensures demonstratesThreshold == old(demonstratesThreshold) && exitOkay == old(exitOkay)
    {
      exceedsThreshold := FieldValue(parsed);
    }

    /** The demonstrates field loses focus with text that parses to `parsed` (None: it does not parse). */
    method DemonstratesFocusLost(parsed: Option<real>)
      modifies this
      ensures demonstratesThreshold == FieldValue(parsed)
      ensures exceedsThreshold == old(exceedsThreshold) && exitOkay == old(exitOkay)
    {
      demonstratesThreshold := FieldValue(parsed);
    }

    /** After the dialog closes: a cancelled dialog re-applies the seeding rule. */
    method Finish()
      modifies this
      ensures old(exitOkay) ==> exceedsThreshold == old(exceedsThreshold) && demonstratesThreshold == old(demonstratesThreshold)
      ensures !old(exitOkay) ==> (exceedsThreshold, demonstratesThreshold) == Seed(association)
      ensures exitOkay == old(exitOkay)
    {
      if !exitOkay {
        var pair := Seed(association);
        exceedsThreshold := pair.0;
        demonstratesThreshold := pair.1;
      }
    }
  }

  /** Use Defaults yields a pair that areThresholdsValid itself rejects. */
  lemma UseDefaultsInvalid()
    ensures !AreThresholdsValid(DEFAULT_EXCEEDS_THRESHOLD, DEFAULT_EXCEEDS_THRESHOLD)
  {
  }
}
