/**
 * controller/FormatConverter.js: the object the form submits carries feet,
 * inches and pounds or centimetres and kilograms; the measurements tables carry
 * height_value and weight_value. Both conversions copy every other field.
 *
 * The module never declares ERROR, so each of its failure paths evaluates an
 * undeclared name and throws. The functions ending in AsWritten model that; the
 * rest of the model uses ToDBFormat and ToInputFormat, which fail with None,
 * the null that SubscriptionService/SubscriptionAPI.js declares as ERROR.
 */
module FormatConverter {
  import opened Wrappers
  import opened Tables

  const IMPERIAL: string := "imperial"
  const METRIC: string := "metric"

  /** What calling a function yields: a value, or a thrown ReferenceError. */
  datatype Outcome<T> = Returned(value: T) | Threw

  /** JavaScript's `%` on integers: the remainder takes the sign of the dividend. */
  function JsRem(a: int, b: int): (r: int)
    requires b > 0
    ensures a >= 0 ==> r == a % b && 0 <= r < b
    ensures a < 0 ==> -b < r <= 0
    ensures a == b * (if a >= 0 then a / b else -((-a) / b)) + r
  {
    if a >= 0 then a % b else -((-a) % b)
  }

  /** convertToDBFormat with failures as null. */
  function ToDBFormat(u: User): (r: Option<User>)
    ensures r.Some? ==> r.value == u.(weight := r.value.weight, height := r.value.height)
    ensures u.system == IMPERIAL ==>
      (r.Some? <==> u.feet != 0 && u.inches.Some? && u.lbs != 0) &&
      (r.Some? ==> r.value.weight == u.lbs && r.value.height == u.feet * 12 + u.inches.value)
    ensures u.system == METRIC ==>
      (r.Some? <==> u.cm != 0 && u.kg != 0) &&
      (r.Some? ==> r.value.weight == u.kg && r.value.height == u.cm)
    ensures u.system != IMPERIAL && u.system != METRIC ==> r.None?
  {
    if u.system == IMPERIAL then
      // inches may be 0; only a missing value is refused
      if u.feet == 0 || u.inches.None? || u.lbs == 0 then None
      else Some(u.(weight := u.lbs, height := u.feet * 12 + u.inches.value))
    else if u.system == METRIC then
      if u.cm == 0 || u.kg == 0 then None
      else Some(u.(weight := u.kg, height := u.cm))
    else None
  }

  /** convertToInputFormat with failures as null. */
  function ToInputFormat(s: User): (r: Option<User>)
    ensures r.Some? <==> s.system == IMPERIAL || s.system == METRIC
    ensures s.system == IMPERIAL ==> r == Some(s.(feet := s.height / 12, inches := Some(JsRem(s.height, 12)), lbs := s.weight))
    ensures s.system == METRIC ==> r == Some(s.(cm := s.height, kg := s.weight))
  {
    if s.system == IMPERIAL then
      Some(s.(feet := s.height / 12, inches := Some(JsRem(s.height, 12)), lbs := s.weight))
    else if s.system == METRIC then
      Some(s.(cm := s.height, kg := s.weight))
    else None
  }

  /** convertToDBFormat as written: every failure path throws. */
  function ToDBFormatAsWritten(u: User): (r: Outcome<User>)
    ensures r.Threw? <==> ToDBFormat(u).None?
    ensures r.Returned? ==> r.value == ToDBFormat(u).value
  {
    if u.system == IMPERIAL then
      if u.feet == 0 || u.inches.None? || u.lbs == 0 then Threw
      else Returned(u.(weight := u.lbs, height := u.feet * 12 + u.inches.value))
    else if u.system == METRIC then
      if u.cm == 0 || u.kg == 0 then Threw
      else Returned(u.(weight := u.kg, height := u.cm))
    else Threw
  }

  /** convertToInputFormat as written: an unknown system throws. */
  function ToInputFormatAsWritten(s: User): (r: Outcome<User>)
    ensures r.Threw? <==> ToInputFormat(s).None?
    ensures r.Returned? ==> r.value == ToInputFormat(s).value
  {
    if s.system == IMPERIAL then
      Returned(s.(feet := s.height / 12, inches := Some(JsRem(s.height, 12)), lbs := s.weight))
    else if s.system == METRIC then
      Returned(s.(cm := s.height, kg := s.weight))
    else Threw
  }

  /**
   * An imperial form without inches makes convertToDBFormat throw instead of
   * returning a falsy value, so its callers' `if (!dbMeasurements)` never runs.
   */
  lemma MissingInchesThrows()
    ensures ToDBFormatAsWritten(User("a@b.c", "weekly", "female", 30, IMPERIAL, 5, None, 150, 0, 0, 0, 0, 1400, 2000)) == Threw
  {
  }

  /**
   * Feet of at least one and inches below twelve survive the trip to the
   * database format and back: the input fields read back are the ones entered.
   */
  lemma ImperialRoundTrip(u: User)
    requires u.system == IMPERIAL && u.feet >= 1 && u.lbs != 0
    requires u.inches.Some? && 0 <= u.inches.value < 12
    ensures ToDBFormat(u).Some?
    ensures ToInputFormat(ToDBFormat(u).value) == ToDBFormat(u)
  {
  }

  /** Centimetres and kilograms survive the trip to the database format and back. */
  lemma MetricRoundTrip(u: User)
    requires u.system == METRIC && u.cm != 0 && u.kg != 0
    ensures ToDBFormat(u).Some?
    ensures ToInputFormat(ToDBFormat(u).value) == ToDBFormat(u)
  {
  }

  /**
   * A stored imperial row of at least a foot and nonzero weight converts to
   * input format and back to the same height and weight.
   */
  lemma StoredImperialRoundTrip(s: User)
    requires s.system == IMPERIAL && s.height >= 12 && s.weight != 0
    ensures ToInputFormat(s).Some? && ToDBFormat(ToInputFormat(s).value) == ToInputFormat(s)
    ensures ToInputFormat(s).value.height == s.height && ToInputFormat(s).value.weight == s.weight
  {
  }

  /** Below one foot, a stored imperial height has no feet to convert back from. */
  lemma ShortImperialRejected(s: User)
    requires s.system == IMPERIAL && 0 <= s.height < 12
    ensures ToDBFormat(ToInputFormat(s).value).None?
  {
  }
}
