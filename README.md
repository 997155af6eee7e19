# Weather fetch-and-store model

A Dafny model of the bookkeeping in a small FastAPI weather service
(`weather/main.py`). The service loads a list of European capitals,
requests the current temperature for each from the Open-Meteo API, and
keeps the readings in a module-level list. A later request can drop
entries from that list by their display label.

The model has three modules:

- `WeatherClient` (`weather_client.dfy`): `get_weather`'s conversion of one API
  answer into a reading `{capital, temperature}`. The HTTP exchange is
  reduced to a `Response(status, temperature)`. Only status 200 counts as
  success. Any other status puts the string `"Error fetching data"` into
  the same `temperature` slot.
- `FetchCoordinator` (`fetch_coordinator.dfy`): the label `"<city>, <country>"`
  and `fetch_weather_for_all`. That function builds one request per city in
  order and gathers their results. Here the gather is a sequential map: the
  i-th answer of the API is the i-th element of an `answers` sequence, and
  reading i belongs to city i. `SplitLabel` is a reference inverse of the
  label format (it is not in the source). It is used to show when a label
  identifies its point.
- `WeatherStore` (`weather_store.dfy`): the global `all_weather_data` as a class
  `Store` with a `seq<Reading>` field. It starts empty. `FetchWeather`
  replaces the field wholesale. `RemoveCity` looks up the label, reports
  not-found (HTTP 404 in the service) when it is absent, and otherwise keeps
  only the readings with a different label. The lookup (`next(...)`) and
  the filter (the list comprehension) are the pure functions
  `FirstWithLabel` and `WithoutLabel`. `RemoveFrom` specifies one removal
  request on values.

Two consequences of the code are worth stating:

- Removal deletes every reading with the given label, not only the first.
  When labels are unique that is exactly one reading (`RemoveUniqueDropsOne`).
- Readings come back in the order of the city list, because `asyncio.gather`
  returns results in argument order.

## Model

| member | source | states |
|---|---|---|
| `WeatherClient.GetWeather` | weather/main.py:37-44 | the reading's capital is the label passed in whatever the status; the slot holds the API temperature exactly when the status is 200, and the string "Error fetching data" otherwise |
| `WeatherClient.GetWeatherRecoversAnswer` | weather/main.py:39-44 | equal readings come from the same label, agree on success or failure, and carry the same temperature on success |
| `WeatherClient.FailuresIndistinguishable` | weather/main.py:43-44 | all non-200 statuses give the same reading (4xx and 5xx are not told apart) |
| `FetchCoordinator.FullName` | weather/main.py:85 | the label is the city, then ", ", then the country, stated position by position |
| `FetchCoordinator.CommaIndex` | weather/main.py:85 | reference helper for the label format (not in the source): the first comma of a label, with no comma before it |
| `FetchCoordinator.SplitFullName` | weather/main.py:85 | round trip: splitting a label at its first comma returns city and country when the city name has no comma |
| `FetchCoordinator.FullNameInjective` | weather/main.py:85 | for comma-free city names, equal labels mean equal city and country |
| `FetchCoordinator.FullNameAmbiguousWithComma` | weather/main.py:85 | a comma in a city name lets two different points share one label |
| `FetchCoordinator.Batch` | weather/main.py:83-88 | one reading per city, same length as the list; reading i is GetWeather of city i's label and answer i |
| `FetchCoordinator.BatchAppend` | weather/main.py:84-87 | the batch of a concatenated list is the concatenation of the batches |
| `FetchCoordinator.BatchFailureIsolation` | weather/main.py:86-87 | reading i has the error marker exactly when answer i is not 200, and it carries city i's label |
| `FetchCoordinator.BatchAllOk` | weather/main.py:86-87 | when every answer is 200 no reading carries the error marker |
| `FetchCoordinator.FetchWeatherForAll` | weather/main.py:82-88 | the task loop plus gather returns exactly Batch of the cities and answers |
| `WeatherStore.Count` | weather/main.py:117 | reference helper for the filter (not in the source): the number of readings with a label is positive exactly when the label is present |
| `WeatherStore.FirstWithLabel` | weather/main.py:111 | none exactly when no reading has the label; otherwise the first position holding it |
| `WeatherStore.WithoutLabel` | weather/main.py:117 | no result entry has the label; every entry comes from the input; the size drops by the number of matches |
| `WeatherStore.WithoutLabelAppend` | weather/main.py:117 | the filter distributes over concatenation |
| `WeatherStore.KeptIndices` | weather/main.py:117 | reference helper for the filter (not in the source): the positions whose label differs, all of them, strictly increasing |
| `WeatherStore.WithoutLabelKeepsOthersInOrder` | weather/main.py:117 | the k-th remaining reading is the input reading at the k-th kept position: others are kept in their relative order |
| `WeatherStore.BatchLabelsUnique` | weather/main.py:85-88 | a batch of comma-free cities with distinct (city, country) pairs has distinct labels, so each later removal drops exactly one reading |
| `WeatherStore.WithoutLabelKeepsUnique` | weather/main.py:117 | removal keeps labels distinct when they were distinct |
| `WeatherStore.CountUnique` | weather/main.py:117 | with distinct labels a present label occurs exactly once |
| `WeatherStore.RemoveFrom` | weather/main.py:111-117 | not-found exactly when the label is absent, and then nothing changes; on success the label is gone and the list is shorter |
| `WeatherStore.RemovePresent` | weather/main.py:116-117 | a present label succeeds; the size drops by its number of matches, which is at least one |
| `WeatherStore.RemoveTwice` | weather/main.py:111-117 | removing twice gives success and then not-found, and the second call changes nothing |
| `WeatherStore.RemoveUniqueDropsOne` | weather/main.py:111-117 | with distinct labels a successful removal drops exactly one reading and keeps labels distinct |
| `WeatherStore.Store.constructor` | weather/main.py:20 | the store starts empty |
| `WeatherStore.Store.Replace` | weather/main.py:102 | the store afterwards is the new batch; no earlier reading survives |
| `WeatherStore.Store.FetchWeather` | weather/main.py:99-103 | a failed load leaves the store unchanged; otherwise the store becomes the batch and is returned |
| `WeatherStore.Store.RemoveCity` | weather/main.py:108-119 | the outcome and the new store are those of RemoveFrom on the old store |
| `WeatherStore.ParisBerlinExample` | weather/main.py:82-117 | Paris and Berlin answering 200 give their two readings in order; removing "Paris, FR" leaves Berlin, and a second removal is not-found |

## Left out

- The aiohttp session, URL building, the HTTP GET and JSON decoding (weather/main.py:37-40, 82). This is network I/O. Each exchange is an abstract `Response` given to the model.
- The `KeyError` raised when a 200 body has no `current_weather.temperature`, and transport exceptions (weather/main.py:38, 41). These propagate as exceptions in the service, so they are not modelled as error readings. Such an exception makes `asyncio.gather` raise, so line 102 never assigns and the store keeps its old contents; `Store.FetchWeather` has no outcome for that case.
- `asyncio.gather` concurrency (weather/main.py:87). It is modelled as a sequential map, since its results follow argument order.
- `load_city_coordinates` (weather/main.py:58-68). CSV reading and `float` parsing are file I/O. The model takes the rows as given, or a `LoadFailed` that aborts the refresh.
- Floating-point temperatures and coordinates. They are carried as `real` values, and nothing computes with them.
- FastAPI routing, the Jinja template page and the response bodies (weather/main.py:92-94, 119). Only the success or not-found outcome is kept.
- Concurrent requests against the shared list. The model treats requests as sequential, as the single-threaded event loop runs each handler without suspension between its read and its write of the list.
