/**
 * The weight of a scraped article by the age of its publication date. The
 * date parser and the current date are inputs: `parse` reads a
 * `%Y-%m-%d` text as a day number (or fails), and `today` is today's day
 * number, so the age in whole days is their difference.
 */
module ArticleWeight {
  import opened Wrappers

  /** The weight when there is no usable date. */
  const Neutral: real := 0.5

  /** The weight of an age in days: four buckets, the first including future dates. */
  function AgeWeight(age: int): real {
    if age <= 30 then 1.0
    else if age <= 365 then 0.8
    else if age <= 3 * 365 then 0.6
    else 0.4
  }

  /**
   * `calculate_weight`: a missing or empty date, or one that does not parse,
   * is neutral; otherwise the age in days decides: up to 30 (future dates
   * included) 1.0, up to a year 0.8, up to three years 0.6, older 0.4.
   */
  function CalculateWeight(publishedDate: Option<string>, parse: string -> Option<int>, today: int): (w: real)
    ensures publishedDate.None? || publishedDate == Some("") ==> w == Neutral
    ensures publishedDate.Some? && publishedDate.value != "" && parse(publishedDate.value).None? ==> w == Neutral
    ensures publishedDate.Some? && publishedDate.value != "" && parse(publishedDate.value).Some? ==>
              var age := today - parse(publishedDate.value).value;
              (age <= 30 ==> w == 1.0) && (30 < age <= 365 ==> w == 0.8) &&
              (365 < age <= 3 * 365 ==> w == 0.6) && (3 * 365 < age ==> w == 0.4)
  {
    match publishedDate
    case None => Neutral
    case Some(text) =>
      if text == "" then Neutral
      else match parse(text)
        case None => Neutral
        case Some(day) => AgeWeight(today - day)
  }

  /** Of two parseable dates, the older never weighs more: the weight is non-increasing in age. */
  lemma OlderWeighsNoMore(older: string, newer: string, parse: string -> Option<int>, today: int)
    requires older != "" && newer != "" && parse(older).Some? && parse(newer).Some?
    requires parse(older).value <= parse(newer).value
    ensures CalculateWeight(Some(older), parse, today) <= CalculateWeight(Some(newer), parse, today)
  {
  }

  /** Every weight is one of the five values, all within [0.4, 1.0]. */
  lemma WeightRange(publishedDate: Option<string>, parse: string -> Option<int>, today: int)
    ensures var w := CalculateWeight(publishedDate, parse, today);
            0.4 <= w <= 1.0 && (w == 1.0 || w == 0.8 || w == 0.6 || w == 0.4 || w == Neutral)
  {
  }
}
