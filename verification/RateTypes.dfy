/** Vocabulary of the exchange-rate cache: series, units of fetch work, provider observations. */
module RateTypes {
  import opened Base

  // Calendar days, counted from 1 January of year 1, which is Go's zero time.
  type Day = int

  datatype Series = Series(id: string, base: string, quote: string)

  // A latest unit refreshes the newest observation of a series; a month unit covers one calendar month of it.
  datatype Unit =
    | LatestUnit(series: Series)
    | MonthUnit(series: Series, from: Day, to: Day, fetchTo: Day, permanent: bool)

  datatype Key = LatestKey(series: Series) | MonthKey(series: Series, month: Day)

  function KeyOf(u: Unit): Key {
    match u
    case LatestUnit(s) => LatestKey(s)
    case MonthUnit(s, from, _, _, _) => MonthKey(s, from)
  }

  datatype Kind = FetchLatest | FetchRange

  datatype FetchRequest = FetchRequest(kind: Kind, ids: seq<string>, from: Day, to: Day)

  // Values are exact decimals without trailing zeros, so that equal numbers are equal values.
  datatype ProviderObservation = ProviderObservation(id: string, date: Day, value: Decimal)

  datatype Observation = Observation(series: Series, date: Day, value: Decimal)

  // The rate source as a fixed function of series and day.
  type Provider = (string, Day) -> Option<Decimal>
}
