/**
  The text inputs of src/components/template-text-input-group.tsx: an edit is cut to
  the section's character cap before it is stored, and the counter under each field
  turns orange above 80% of the cap and red at the cap.
 */
module Input {
  import opened Paper

  /** `maxLength > 0 ? value.slice(0, maxLength) : value`. */
  function Truncate(value: string, maxLength: int): (r: string)
    ensures |r| <= |value| && r == value[..|r|]
    ensures maxLength > 0 ==> |r| == (if |value| < maxLength then |value| else maxLength)
    ensures maxLength <= 0 ==> r == value
  {
    if maxLength > 0 && |value| > maxLength then value[..maxLength] else value
  }

  /** Truncating twice with the same cap is truncating once. */
  lemma TruncateIdempotent(value: string, maxLength: int)
    ensures Truncate(Truncate(value, maxLength), maxLength) == Truncate(value, maxLength)
  {
  }

  /** Text already within the cap is stored unchanged. */
  lemma TruncateWithinCap(value: string, maxLength: int)
    requires |value| <= maxLength
    ensures Truncate(value, maxLength) == value
  {
  }

  /** `handleInputChange(field, value)`: the edited field takes the truncated value, the others stay. */
  function HandleInputChange(letter: LetterData, config: PaperTypeConfig, field: Section, value: string): (r: LetterData)
    ensures r.Get(field) == Truncate(value, config.maxCharacters.Of(field))
    ensures forall s :: s != field ==> r.Get(s) == letter.Get(s)
  {
    letter.With(field, Truncate(value, config.maxCharacters.Of(field)))
  }

  /** Typing the stored text back into its field changes nothing. */
  lemma HandleInputChangeIdempotent(letter: LetterData, config: PaperTypeConfig, field: Section, value: string)
    ensures var once := HandleInputChange(letter, config, field, value);
      HandleInputChange(once, config, field, once.Get(field)) == once
  {
    var once := HandleInputChange(letter, config, field, value);
    var twice := HandleInputChange(once, config, field, once.Get(field));
    TruncateIdempotent(value, config.maxCharacters.Of(field));
    assert forall s :: twice.Get(s) == once.Get(s);
    assert twice.topLeft == twice.Get(TopLeft) && twice.topRight == twice.Get(TopRight) && twice.body == twice.Get(Body);
  }

  /** `getCharacterCount(field)`: the length of the text stored for the field. */
  function CharacterCount(letter: LetterData, field: Section): (n: nat)
    ensures n == 0 <==> letter.Get(field) == ""
  {
    |letter.Get(field)|
  }

  /** `getCharacterLimit(field)`: the cap the paper type sets for the field; on a configured size it is 0 exactly for a hidden field. */
  function CharacterLimit(config: PaperTypeConfig, field: Section): (l: int)
    ensures forall p :: config == Config(p) ==> (l == 0 <==> field !in config.fields) && l >= 0
  {
    config.maxCharacters.Of(field)
  }

  /** `count > limit * 0.8`, computed on integers as `5 * count > 4 * limit`. */
  predicate IsNearLimit(count: int, limit: int)
    ensures IsNearLimit(count, limit) <==> (count as real) > (limit as real) * 0.8
  {
    5 * count > 4 * limit
  }

  /** `count >= limit`; with a positive limit, a count at the limit is also past 80% of it. */
  predicate IsAtLimit(count: int, limit: int)
    ensures limit > 0 && IsAtLimit(count, limit) ==> IsNearLimit(count, limit)
  {
    count >= limit
  }

  /** A field the paper size does not show has cap 0, so it always reads as at its limit. */
  lemma HiddenFieldAtLimit(p: PaperSize, letter: LetterData, field: Section)
    requires field !in Config(p).fields
    ensures IsAtLimit(CharacterCount(letter, field), CharacterLimit(Config(p), field))
  {
  }

  /**
    After an edit to a field with a positive cap the count never passes the cap, and the
    field is at its limit exactly when the typed text reached the cap.
   */
  lemma EditRespectsCap(letter: LetterData, config: PaperTypeConfig, field: Section, value: string)
    requires CharacterLimit(config, field) > 0
    ensures var r := HandleInputChange(letter, config, field, value);
      && CharacterCount(r, field) <= CharacterLimit(config, field)
      && (IsAtLimit(CharacterCount(r, field), CharacterLimit(config, field)) <==> |value| >= CharacterLimit(config, field))
  {
  }
}
