# Promo agent price check and recommendation reply handling

This project models two small services of an online shop's agent layer:

- **Promo agent** (`src/promo-agent/app.py`). It keeps a watchlist, `WATCHED_PRODUCTS`, which maps a product id to the last price seen for it. The list is seeded with three ids, and no price is recorded at first. Every minute, `check_product_prices` walks the ids in insertion order and fetches each product from the catalog reader. It reads `priceUsd.units` with `int()`; a missing field counts as `"0"`. It raises a price-drop alert when a recorded price is strictly undercut, and it stores the price just read. A failed request or an unparsable price skips that id only.
- **Recommendation agent** (`src/recommendation-agent/app.py`). `POST /recommend` refuses a body without a `query` with 400. Otherwise it asks the generative model. From the stripped reply it takes the text between the first `{` and the last `}` and parses that as JSON. Every failure after validation ends in 500.

Files:

- `wrappers.dfy`: `Option` and `Result`.
- `py_int.dfy`: Python's `int()` on text, for the form the catalog emits. Its partner is a decimal formatter, and a round-trip lemma connects the two.
- `py_str.dfy`: `str.strip()`, `str.find(c)` and `str.rfind(c)`.
- `promo_agent.dfy`: the watchlist as a class whose fields the check updates.
  - The loop of `check_product_prices` is a method, proved against `Cycle`, a left fold of one `Visit` per id.
  - `Cycle` is in turn proved equal to a snapshot reference definition, `Observed` and `Drops`. The properties of a cycle are proved about those definitions.
- `recommendation_agent.dfy`: request validation, JSON-span extraction and the whole handler.

The catalog request, the generative model and `json.loads` are parameters. `fetch: string -> Fetch` gives a body or a request failure. `model: string -> Option<string>` gives `None` when the model call raises. `loads: string -> bool` says whether a text is a JSON document. The printed alert is an `Alert` value returned by the cycle.

The service's documented design (a price-watch agent that skips malformed catalog answers, bounds each catalog call with a timeout, and offers a control endpoint, a store lock and a notifier) differs from the code in these points; the model follows the code:

- A product body without `priceUsd`, or with no `units`, is described as a malformed response that is skipped. The code defaults the units to `"0"`, so such a product reads as price 0, and after a recorded positive price it raises a drop alert down to 0. `MissingPriceReadsAsZero` states the read, and `MissingPriceAlertsDropToZero` the alert and the stored 0.
- The documented design bounds each catalog call with a timeout, so that a hung catalog cannot stall a cycle. The code calls `requests.get(url)` with no timeout (src/promo-agent/app.py:34), so a catalog that never answers stalls the cycle and the scheduler indefinitely.
- The documented design has an endpoint to add products to the watchlist, a lock around the table and a notifier. None of these exists in the code, so none is modelled.

## Model

| member | source | states |
|---|---|---|
| PromoAgent.Watchlist.constructor | src/promo-agent/app.py:18-22 | The watchlist starts with the three seeded ids in insertion order, each with no recorded price. |
| PromoAgent.Watchlist.CheckProductPrices | src/promo-agent/app.py:24-60 | One cycle visits every watched id in insertion order. The new table and the alerts, in the order raised, are those of `Cycle` over the ids. The ids and the order are unchanged. |
| PromoAgent.Watchlist.CheckProduct | src/promo-agent/app.py:31-60 | One loop iteration. If the price read fails, nothing changes. Otherwise the current price is stored, and an alert with the old and new price is raised exactly when a recorded price is strictly undercut. |
| PromoAgent.CycleNext | src/promo-agent/app.py:30 | Visiting the next id extends the cycle by exactly one `Visit` on the table the earlier iterations left. |
| PromoAgent.CycleIsSnapshot | src/promo-agent/app.py:30-55 | Over distinct ids, the sequential cycle equals the snapshot reference. Every visited id with a readable price ends up holding it, the other entries are unchanged, and each alert compares an id's current price with its price from before the cycle. |
| PromoAgent.CycleKeepsKeys | src/promo-agent/app.py:30-55 | A cycle neither adds nor removes ids, and entries for ids it does not visit keep their value. |
| PromoAgent.StoredPrice | src/promo-agent/app.py:54-60 | After a cycle, a visited id holds the price just read when reading succeeded, whether or not it dropped. Otherwise it keeps its previous entry. |
| PromoAgent.DropsAreDrops | src/promo-agent/app.py:45-51 | Every alert names a visited id. Its old price is the recorded one, its new price is the one just read, the new price is strictly lower, and it carries the product name. |
| PromoAgent.DropsComplete | src/promo-agent/app.py:45-51 | Every visited id whose recorded price is strictly undercut by a readable current price gets its alert. |
| PromoAgent.DropsOnePerId | src/promo-agent/app.py:30-51 | A cycle over distinct ids raises at most one alert per id. |
| PromoAgent.AlertIffDrop | src/promo-agent/app.py:45-51 | An alert for a watched id fires if and only if the price read succeeded, a price was recorded, and the new price is strictly lower. That alert is the id, its name, the old price and the new price. |
| PromoAgent.FirstObservation | src/promo-agent/app.py:45-55 | An id with no recorded price never raises an alert. Afterwards it holds the price just read, or still none when reading failed. |
| PromoAgent.SkippedIdIsIsolated | src/promo-agent/app.py:57-60 | A failed request or unparsable price for one id gives the same table and alerts as a cycle without that id. |
| PromoAgent.PriceReadFails | src/promo-agent/app.py:34-60 | Reading a price fails exactly when the request fails or the units text is not an integer literal. |
| PromoAgent.MissingPriceReadsAsZero | src/promo-agent/app.py:40-41 | A body without `priceUsd`, or without `units`, reads as price 0. |
| PromoAgent.MissingPriceAlertsDropToZero | src/promo-agent/app.py:40-55 | A product whose body loses its price after a positive price was recorded raises the alert from that price to 0, and 0 is stored. |
| PromoAgent.UnitsRoundTrip | src/promo-agent/app.py:40-41 | A price written as canonical decimal units text is read back as that price. |
| PromoAgent.PriceDropScenario | src/promo-agent/app.py:45-60 | Three cycles in which one id fails throughout and the other is quoted 100, then 90, then 90. The first records 100 with no alert, the second alerts 100 to 90, the third alerts nothing. The failing id stays unpriced. |
| PyInt.ParseInt | src/promo-agent/app.py:41 | `int()` on text succeeds exactly on an optional sign followed by at least one decimal digit. A leading `-` gives a non-positive value, otherwise the value is non-negative. |
| PyInt.ParseShowRoundTrip | src/promo-agent/app.py:41 | Parsing the decimal text of any integer gives that integer back. |
| PyInt.DigitsValue | src/promo-agent/app.py:41 | The value of n decimal digits is below 10^n. |
| PyStr.Strip | src/recommendation-agent/app.py:137 | The stripped text is the slice of the input after its leading whitespace. Everything after the slice is whitespace, and the result neither starts nor ends with whitespace. |
| PyStr.StripKeepsNonSpace | src/recommendation-agent/app.py:137 | A non-whitespace character occurs in the stripped text exactly when it occurs in the input. |
| PyStr.StripIdempotent | src/recommendation-agent/app.py:137 | Stripping twice is stripping once. |
| PyStr.Find | src/recommendation-agent/app.py:138 | The result is -1 exactly when the character is absent. Otherwise it is an index of the character with none before it. |
| PyStr.RFind | src/recommendation-agent/app.py:139 | The result is -1 exactly when the character is absent. Otherwise it is an index of the character with none after it. |
| RecommendationAgent.ValidateRequest | src/recommendation-agent/app.py:124-128 | A request is accepted exactly when its body is present and has a `query` field, and the query handed on is that field's value. |
| RecommendationAgent.Recommend | src/recommendation-agent/app.py:122-150 | The response is 400 exactly when validation fails. For a valid request, a failing model call gives 500 (model failed) and a reply without a brace pair gives 500 (no JSON object). Otherwise the answer is 200 with the extracted span exactly when `json.loads` accepts that span, and 500 (invalid JSON) when it does not. |
| RecommendationAgent.RejectedBeforeModelCall | src/recommendation-agent/app.py:124-126 | A refused request gets 400 whatever the model would answer. |
| RecommendationAgent.ExtractFailsIffBraceMissing | src/recommendation-agent/app.py:137-141 | Extraction fails with "no JSON object" exactly when the reply lacks a `{` or lacks a `}`. |
| RecommendationAgent.ExtractSpan | src/recommendation-agent/app.py:137-143 | On success, if the first `{` precedes the last `}` of the stripped reply, the result is the text from one to the other inclusive, starting with `{` and ending with `}`. If the last `}` comes first, the result is empty. |
| RecommendationAgent.ExtractWrappedObject | src/recommendation-agent/app.py:135-143 | A reply that wraps one object in brace-free text, such as a Markdown fence or a sentence, yields exactly that object. |
| RecommendationAgent.MisorderedBracesFail | src/recommendation-agent/app.py:139-150 | A reply whose last `}` precedes its first `{` is cut to the empty text, which does not parse, so the request ends in 500. |

## Left out

- The HTTP request to the catalog reader, `raise_for_status()` and `response.json()` are left out. In the model a request either fails or yields a product body; this is the `fetch` parameter.
- A request that never returns is not modelled: `requests.get` at src/promo-agent/app.py:34 has no timeout, so a silent catalog blocks the cycle and every later scheduled run. The total `fetch` parameter always answers.
- The `schedule` loop in `main` and the one-minute period are left out. One call of `CheckProductPrices` is one scheduled run.
- The configuration check on `CATALOG_READER_URL` at start-up is left out. It raises before any check runs.
- Printed text is left out. Each printed alert is modelled as an `Alert` value.
- PyInt.ParseInt: does not model the leniencies of Python's `int()`: surrounding whitespace, `_` between digits and non-ASCII digits. The catalog is not expected to send such units text.
- PyInt.ParseInt: has no digit-count limit. CPython 3.11 and later (and the 3.7.14, 3.8.14, 3.9.14 and 3.10.7 security releases) raise `ValueError` on text of more than 4300 decimal digits, while the model parses it. The catalog writes `units` from an int64 field, so its text has at most 20 characters.
- PromoAgent.PriceReadFails: for the same reason, the model reads a units text of more than 4300 digits as a price. On those Python versions `int()` raises `ValueError`, the `except` at src/promo-agent/app.py:59 skips the id, and its recorded price stays.
- PromoAgent.CurrentPrice: does not model non-string `units` values, nor a body or `priceUsd` that is present but not a JSON object. `int()` reads a JSON integer as itself, truncates a JSON float toward zero (9.99 reads as 9) and reads `true` and `false` as 1 and 0. A `null`, list or object `units` raises an uncaught `TypeError`. A non-object `priceUsd`, such as `null`, makes `.get('units', '0')` at src/promo-agent/app.py:40 raise an uncaught `AttributeError`. An uncaught exception aborts the cycle: prices already written for earlier ids stay and later ids are not visited. `main` catches nothing around the first call or around `schedule.run_pending()` (src/promo-agent/app.py:65-72), so the exception ends the agent's process and no later cycle runs.
- RecommendationAgent.ValidateRequest: does not model request bodies that are JSON but not objects, such as a list or a string. It also treats field values as opaque text.
- The generative model, its tools (`search_products`, `get_product_details`), the system prompt and the chat session are left out. The model is the `model` parameter.
- `json.loads` is left out. It is the `loads` parameter, so the model states which text reaches it and not what it parses to. The 200 body is `jsonify` of the parsed value (src/recommendation-agent/app.py:144-145); `Ok200` carries the span that was accepted, not that re-serialised text.
- The 500 error message text, which quotes the raw reply, is left out. The model keeps only the reason.
- The catalog-reader and agent-gateway services are not part of this model.
- Concurrency is not modelled. The watchlist is changed only by the single scheduled job.
