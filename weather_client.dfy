/** The per-point half of the weather fetcher: turning one answer of the
    remote weather API into a reading of the form
    `{capital: label, temperature: value-or-marker}`. */
module WeatherClient {

  /** The API's `current_weather.temperature` value. No arithmetic is ever
      done on it, so a real number is an adequate stand-in for the float. */
  type Temperature = real

  /** The only HTTP status the client treats as success. */
  const StatusOk: int := 200

  /** The string stored in the temperature slot when the fetch failed. */
  const ErrorMarker: string := "Error fetching data"

  /** The `temperature` slot of a reading: either the API's value or the
      error marker string; the marker is not a separate field. */
  datatype TemperatureSlot = Degrees(value: Temperature) | Marker(text: string)

  /** One reading: the display label of the point and its temperature slot. */
  datatype Reading = Reading(capital: string, temperature: TemperatureSlot)

  /** One HTTP exchange with the weather API, abstracted to its status code
      and the temperature decoded from the JSON body (which the client only
      looks at when the status is 200). */
  datatype Response = Response(status: int, temperature: Temperature)

  /** True when a reading carries the error marker instead of a value. */
  predicate IsError(r: Reading) {
    r.temperature.Marker?
  }

  /** Normalises one API answer into a reading for the point labelled `name`. */
  function GetWeather(name: string, resp: Response): (r: Reading)
    ensures r.capital == name
    ensures !IsError(r) <==> resp.status == StatusOk
    ensures !IsError(r) ==> r.temperature.value == resp.temperature
    ensures IsError(r) ==> r.temperature.text == ErrorMarker
  {
    if resp.status == StatusOk then
      Reading(name, Degrees(resp.temperature))
    else
      Reading(name, Marker(ErrorMarker))
  }

  /** A reading loses exactly one thing about the answer: which non-200
      status it was. The label, whether it succeeded and the value on
      success can all be read back from it. */
  lemma GetWeatherRecoversAnswer(l1: string, a1: Response, l2: string, a2: Response)
    requires GetWeather(l1, a1) == GetWeather(l2, a2)
    ensures l1 == l2
    ensures (a1.status == StatusOk) == (a2.status == StatusOk)
    ensures a1.status == StatusOk ==> a1.temperature == a2.temperature
  {
  }

  /** Every failing status gives the same reading: a 404 and a 500 (or any
      other non-200 status, whatever the body) cannot be told apart. */
  lemma FailuresIndistinguishable(name: string, a1: Response, a2: Response)
    requires a1.status != StatusOk && a2.status != StatusOk
    ensures GetWeather(name, a1) == GetWeather(name, a2)
  {
  }
}
