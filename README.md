# Geo_Image_Guessr panorama acquisition, modelled in Dafny

The repository collects street-level panorama ids for a list of countries. For
each country it samples random points inside the country's polygon
(`sample_points`). It asks the Street View metadata service about each point and
keeps the ids it has not seen before, until it holds `n_valid` of them
(`get_valid_pano_ids`). A small driver runs this for Spain, France and Italy with
a quota of 1000 and appends the per-country lists into one table.

The model has three modules, one per component:

- `Sampler` (`sampler.dfy`): the filtering step of `sample_points`. The two
  coordinate sequences stand for the `n` uniform draws; the loop's calls use the
  default `n = 5000`, which here is just the length of those sequences. A
  predicate on points stands for the point-in-polygon test against the
  country's polygon union.
- `Acquisition` (`acquisition.dfy`): the acquisition loop. The model sees the
  metadata service only through its replies. Each sampled point comes paired
  with the reply its lookup gets (`Candidate`), and the replies are `Ok(lat, lng,
  panoId)` or `NotOk`. The source calls `sample_points` over and over without
  end. The model receives a finite prefix of those batches. When the given
  batches run out before the quota is met, the outcome is `StreamExhausted`:
  the quota is not met within these batches, and the program would go on
  requesting more.
  The two modules share only the `Point` type: the model does not tie a batch
  of `GetValidPanoIds` to a `SamplePoints` result, and every property of the
  loop holds for any batches.
  `GetValidPanoIds` is the loop as written: a `while` over batches, a `for` over
  the points of a batch, the quota check before every lookup with an early
  return, a seen set and an append-only record list. It is proved against
  `IsAcquisition`, a relation built on `Collect`. `Collect` is the fold of the
  per-reply step: skip a reply that is not OK, skip an id already seen, else
  append a record. The outcome also reports how many lookups were sent
  (`calls`) and how many batches were requested (`sampled`). These two numbers
  state the short-circuit.
- `Orchestrator` (`orchestrator.dfy`): the driver's `for country in ...` loop.
  Its output is the in-order concatenation `Combine` of the per-country lists.

## Model

| member | source | states |
|---|---|---|
| `Sampler.PointsFromXY` | get_images_id_poc.py:40 | The i-th point pairs the i-th x draw with the i-th y draw, one point per draw. |
| `Sampler.KeepWithin` | get_images_id_poc.py:42-44 | The kept points are no more than the drawn ones. Every kept point lies inside the region. Every drawn point that lies inside is kept, and nothing else appears. |
| `Sampler.SamplePoints` | get_images_id_poc.py:29-44 | A batch holds only drawn points, all inside the region. Every draw `(x[k], y[k])` that lies inside is in the batch. It holds exactly as many points as there are inside draws, so at most `n`. |
| `Sampler.SamplePointsAppend` | get_images_id_poc.py:37-44 | Sampling two runs of draws gives the two batches one after the other, so a batch keeps the points in the order they were drawn. |
| `Sampler.KeepWithinAppend` | get_images_id_poc.py:42-44 | Filtering commutes with concatenation, so the points keep their sampled order. |
| `Sampler.KeepWithinAllInside` | get_images_id_poc.py:32-33 | When every draw lies inside, all `n` come back. The code promises "at most n", not the docstring's "less than n". |
| `Sampler.KeepWithinCount` | get_images_id_poc.py:42-44 | A batch holds exactly as many points as there are draws inside the region. |
| `Acquisition.Target` | get_images_id_poc.py:59 | Definition: the number of records the `while` guard asks for, 0 for a non-positive `n_valid`. Properties in `GetValidPanoIds` and `QuotaMetIff`. |
| `Acquisition.Accept` | get_images_id_poc.py:67-73 | Definition of the per-reply step. Properties in `AcceptFirstOccurrences`, `IgnoredLeaveUnchanged` and `IdsSnoc`. |
| `Acquisition.Collect` | get_images_id_poc.py:61-73 | Definition: the fold of the per-reply step over the replies, with no quota. Properties in `CollectFirstOccurrences`, `CollectDistinct`, `CollectIds`, `CollectOneToOne`, `CollectAppendOnly` and `CollectPrefixMonotone`. |
| `Acquisition.IsAcquisition` | get_images_id_poc.py:47-74 | Definition of the loop's result as a relation. Properties in `GetValidPanoIds`, `AcquisitionDeterministic`, `AcquisitionRecords`, `QuotaMetIff` and `LastCallCompletesQuota`. |
| `Acquisition.FirstOkIndex` | get_images_id_poc.py:67-69 | Gives the position of the first OK reply carrying an id, or the stream length when there is none. The reply there is OK with that id, and no reply before it is. |
| `Acquisition.IdsSnoc` | get_images_id_poc.py:70-73 | Appending a record adds exactly its id to the set of ids of the list. |
| `Acquisition.CollectFirstOccurrences` | get_images_id_poc.py:61-73 | The list holds exactly the first occurrences. Each record is `[country, reply.lat, reply.lng, id]` from its id's first OK reply: the service's location, not the sampled point. Records come in the order of those first replies, and every id with an OK reply has a record. |
| `Acquisition.AcceptFirstOccurrences` | get_images_id_poc.py:67-73 | Handling one reply (skip it or append its record) keeps the list the list of first occurrences of the longer stream. |
| `Acquisition.CollectDistinct` | get_images_id_poc.py:69-73 | The ids in the list are pairwise distinct. |
| `Acquisition.CollectIds` | get_images_id_poc.py:58-70 | The seen set, the ids of the list, is exactly the set of ids that got an OK reply so far. |
| `Acquisition.CollectOneToOne` | get_images_id_poc.py:58-73 | The seen set has as many elements as the list has records, and as many as there are distinct OK ids. |
| `Acquisition.DistinctIdsCount` | get_images_id_poc.py:69-73 | A record list with pairwise distinct ids has as many ids as records. |
| `Acquisition.CollectAppendOnly` | get_images_id_poc.py:73 | The list is append-only. The list after more replies starts with the earlier list, unchanged. |
| `Acquisition.IgnoredLeaveUnchanged` | get_images_id_poc.py:67-69 | Replies that are not OK, or whose id is already in the seen set, leave the list unchanged. Re-submitting accepted ids never grows it. |
| `Acquisition.CollectPrefixMonotone` | get_images_id_poc.py:59-73 | A longer prefix of the stream never yields fewer records. |
| `Acquisition.ProgressStep` | get_images_id_poc.py:64-73 | Handling one reply while the quota is unmet keeps the loop state: the list is the fold of the replies so far, the set holds its ids, the sizes agree, and every lookup was sent while the quota was unmet. |
| `Acquisition.GetValidPanoIds` | get_images_id_poc.py:47-74 | The list is what the sent lookups yield, and the lookups sent are a prefix of the stream. Every lookup and every batch is requested while the quota is unmet. The lookups come from the requested batches. On `QuotaMet` the list holds exactly `n_valid` records, or none when `n_valid <= 0`. On `StreamExhausted` every batch was used and the quota is still unmet. |
| `Acquisition.AcquisitionRecords` | get_images_id_poc.py:57-74 | The returned list has pairwise distinct ids. The seen set has as many ids as the list has records. Every record carries the country name and is the first occurrence of its id among the lookups sent. |
| `Acquisition.AcquisitionDeterministic` | get_images_id_poc.py:59-63 | The relation admits one outcome per input: status, list, lookup count and batch count are all determined. |
| `Acquisition.QuotaMetIff` | get_images_id_poc.py:59-63 | The quota is met exactly when the given batches hold at least `n_valid` distinct ids with an OK reply. Otherwise the batches run out and the program would keep requesting more. |
| `Acquisition.LastCallCompletesQuota` | get_images_id_poc.py:62-63 | With `n_valid > 0`, the last lookup sent is an OK reply that brings the list from `n_valid - 1` to `n_valid`. No lookup is sent after the quota is reached. |
| `Orchestrator.Combine` | get_images_id_poc.py:82-85 | Definition: the `full_list.extend` fold over the per-country lists. Properties in `CombineLength`, `CombineSegment`, `CombinePartition` and `CombineUniform`. |
| `Orchestrator.CombineLength` | get_images_id_poc.py:82-85 | The combined list is as long as the per-country lists together. |
| `Orchestrator.CombineSegment` | get_images_id_poc.py:82-85 | The i-th country's list appears unchanged, right after the lists of the countries before it. |
| `Orchestrator.CombinePartition` | get_images_id_poc.py:82-85 | Take distinct countries, with each list tagged with its own country. Then the rows of country i in the combined list are exactly list i. |
| `Orchestrator.RunCountries` | get_images_id_poc.py:82-85 | The countries run in order, each outcome as `GetValidPanoIds` specifies. The run stops at the first country whose given batches do not fill the quota. The combined list is the concatenation of the completed lists. |
| `Orchestrator.CombineUniform` | get_images_id_poc.py:82-85 | When every per-country list has the same length t, the combined list has t rows per list. |
| `Orchestrator.CompletedAll` | get_images_id_poc.py:84-85 | When every country meets its quota, list i of the concatenation is country i's returned list. |
| `Orchestrator.RunRowCount` | get_images_id_poc.py:82-85 | When every country meets its quota, the table has quota × countries rows. Ids that repeat across countries are not merged. |
| `Orchestrator.RunPartition` | get_images_id_poc.py:71-85 | When every country meets its quota, the rows tagged with country i are exactly the list returned for country i. |
| `Orchestrator.PocRowCount` | get_images_id_poc.py:83-85 | With Spain, France and Italy at a quota of 1000 each, a completed run yields 3000 rows. |

The model follows the code on these points:

- A non-positive `n_valid` is not an error. The `while` guard is false at once and the result is `[]`.
- No ceiling, timeout or "quota unreachable" error exists. Batches that cannot fill the quota end in `StreamExhausted`: the program would keep requesting batches.
- `sample_points` keeps the sampled order of the surviving points.
- `sample_points` can return all `n` points, although its docstring says "less than n".

## Left out

- `get_api_key` (file read) and `load_europe` (HTML scrape of a web page and a geopandas dataset load): I/O and foreign libraries.
- The random draws (`np.random.uniform` over the bounding box, `total_bounds`) and the shapely point-in-polygon test over the polygon union: randomness, floating point and foreign geometry. The draws are parameters and the test is a predicate.
- The metadata HTTP request, its JSON decoding and the `params` dictionary with the 1000 m search radius. Each lookup is represented by the reply it gets. Every status other than "OK" becomes `NotOk`, because the loop treats them all alike.
- The failure paths of a lookup: `requests.get` can raise, and with no timeout it can block; `r.json()` raises on a body that is not JSON; a missing `status`, `pano_id` or `location` key raises `KeyError`. Each would propagate out of `get_valid_pano_ids` and the driver before the CSV is written, so nothing is saved. `Response` has no such case, and `NotOk` is a skipped reply, not an error.
- Coordinates are `real`, not IEEE doubles. The loop only carries them and does no arithmetic on them.
- The unending stream of `sample_points` batches is a finite prefix. `StreamExhausted` means only that the quota is not met within that prefix. The model does not say whether later batches would complete the quota, nor express a run that never ends.
- `Orchestrator.RunCountries`: the combined list it returns after a country's batches run out is a model artifact, because the program does not move to the next country until that country's quota is met.
- Building the pandas DataFrame, writing the CSV file, and the `print` of per-country progress: output only.
- `scripts/get_panos.py`: directory creation, the image fetch for four headings, PIL decoding and saving, CSV reading. It is I/O plumbing, and its only computation is the `{i:04d}` directory name.
