/** The keyword rule that picks the SDA/ADA targets out of the SBTI group. */
module Sbti {
  import opened Text

  /** The method of a text that mentions the sectoral decarbonization approach. */
  const SdaAda := "SDA/ADA"

  /** The method of every other text. */
  const NotApplicable := "N/A"

  /** `detect_method_sbti`: "SDA/ADA" when the lower-cased text contains "decarbonization" or
      "sda", "N/A" otherwise. */
  function DetectMethod(text: string): (m: string)
    ensures m == SdaAda || m == NotApplicable
  {
    if Contains(Lower(text), "decarbonization") then SdaAda
    else if Contains(Lower(text), "sda") then SdaAda
    else NotApplicable
  }

  /** The method is "SDA/ADA" exactly when one of the two keywords occurs in the lower-cased text. */
  lemma DetectMethodSpec(text: string)
    ensures DetectMethod(text) == SdaAda <==>
              (exists i :: OccursAt(Lower(text), "decarbonization", i)) ||
              (exists i :: OccursAt(Lower(text), "sda", i))
  {
  }

  /** The rule ignores case: a text and its lower-cased form get the same method. */
  lemma CaseInsensitive(text: string)
    ensures DetectMethod(Lower(text)) == DetectMethod(text)
  {
    LowerIdempotent(text);
  }

  /** A text whose first letters spell "Decarbonization" in any case is an SDA/ADA target. */
  lemma DecarbonizationPrefix(text: string)
    requires |text| >= 15 && Lower(text[..15]) == "decarbonization"
    ensures DetectMethod(text) == SdaAda
  {
    assert Lower(text)[0..15] == Lower(text[..15]);
    assert OccursAt(Lower(text), "decarbonization", 0);
    DetectMethodSpec(text);
  }

  /** The worked example of a decarbonization target. */
  lemma DecarbonizationStrategy()
    ensures DetectMethod("Decarbonization Strategy 2030") == SdaAda
  {
    var text := "Decarbonization Strategy 2030";
    assert Lower(text[..15]) == "decarbonization";
    DecarbonizationPrefix(text);
  }

  /** The rule is a plain substring test: "sda" inside another word counts, as in "Tuesday". */
  lemma MatchesInsideWords()
    ensures DetectMethod("by Tuesday") == SdaAda
  {
    var text := "by Tuesday";
    assert text[6] == 's' && text[7] == 'd' && text[8] == 'a';
    var low := Lower(text);
    assert low[6] == 's' && low[7] == 'd' && low[8] == 'a';
    assert low[6..9] == "sda";
    assert OccursAt(low, "sda", 6);
    DetectMethodSpec(text);
  }
}
