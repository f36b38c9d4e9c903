/**
 * The reply choice that src/commands/baseline.js:24-51 and
 * src/commands/checkin.js:33-61 share when `parseWeight` gives `null`: the
 * same regular expression is matched again and its number compared with the
 * range limits.
 */
module WeightCheck {
  import opened Wrappers
  import opened Validation

  /** What a command text amounts to: a weight, or the reason it is refused. */
  datatype WeightCheck = Accepted(weight: real) | BelowMinimum | AboveMaximum | BadFormat

  /**
   * `parseWeight(text)`, and when that is `null`, the re-match: below 100, above 1000, or
   * "Invalid format". The in-range "Invalid format" branch of the code is kept, and the
   * contract shows it never fires: the format error means there is no match at all.
   */
  function ClassifyWeight(text: string): (r: WeightCheck)
    ensures r.Accepted? <==> ParseWeight(Some(text)).Some?
    ensures r.Accepted? ==> r.weight == ParseWeight(Some(text)).value && MinWeight <= r.weight <= MaxWeight
    ensures r.BelowMinimum? <==> MatchWeight(text).Some? && MatchWeight(text).value.value < MinWeight
    ensures r.AboveMaximum? <==> MatchWeight(text).Some? && MatchWeight(text).value.value > MaxWeight
    ensures r.BadFormat? <==> MatchWeight(text).None?
  {
    match ParseWeight(Some(text))
    case Some(w) => Accepted(w)
    case None =>
      match MatchWeight(text)
      case None => BadFormat
      case Some(m) =>
        if m.value < MinWeight then BelowMinimum
        else if m.value > MaxWeight then AboveMaximum
        else BadFormat
  }
}
