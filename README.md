# SCIoT split-computing client and server, modelled in Dafny

SCIoT splits the inference of a neural network between a small device and an
edge server. The device runs the first layers of the model. It sends the
intermediate output and its per-layer timings to the server in a binary frame,
and the server runs the remaining layers. From the timings, the layer output
sizes and the measured link speed, the server picks the split point with the
lowest total latency. A stability monitor decides when the timings have drifted
enough that the split should be searched again.

This project models the decision logic and the wire formats of that system:

- the stability monitor (`Variance`): bounded windows of times per layer, the
  coefficient-of-variation test, the device and edge bookkeeping, the cascade
  of layers to re-test and the retest flags;
- the split-point search of the simulated scenarios and of the statistics
  collector (`Scenario`, `StatsCollector`), over the summary statistics of a
  list of samples (`SampleStats`);
- the edge model manager's smoothed timings, save path and layer sizes
  (`Models`);
- the message helpers (`Messages`) and the request handler (`Requests`): the
  parser of the inference-result frame, the latency and speed extension, and
  the recording of the device's times;
- the two light clients (`HttpClient`, `WebsocketClient`): the RGB565 image
  encoders, the frame builders, the message ids, the layer fallback and the
  WebSocket handler's state;
- the server's RGB565 decoder (`InputConverter`);
- the artificial delay simulator (`Delay`) and the simulation runner's
  bookkeeping (`SimRunner`).

Shared modules hold the `Option`/`Result` types and Python's exceptions
(`Wrappers`), Python's `struct` codes, float byte groups and UTF-8
(`Bytes`), decimal text of integers (`Decimal`) and images as rows of pixels
(`Images`).

Times, sizes and speeds are `real`. Float32 payload values are opaque 4-byte
groups (`Single`), and a timestamp is the 8 bytes of a binary64 value
(`Double`), read as a number only where the latency needs it. The native
`struct` codes `d`, `i` and `I` are taken on a little-endian host. The square
root is never taken: the standard deviation is carried as its square (the
sample variance), and `cv > t` is decided by comparing squares. For a mean
above 0 and t ≥ 0, `cv > t` holds exactly when the variance exceeds
t²·mean² (`SampleStats.CvExceedsIsRatio`).

Where the code and its documentation disagree, the model follows the code:

- a layer is never removed from a variance set;
- the re-test cascade adds i + 1 with no upper bound;
- `should_retest_offloading` clears both flags when it is asked.

## Model

| member | source | states |
|---|---|---|
| Variance.Push | src/server/variance_detector.py:26-40 | appending to a bounded deque: the window never exceeds its capacity; below capacity the sample is appended; a full window drops exactly its oldest sample |
| Variance.FillKeepsNewest | src/server/variance_detector.py:26-40 | after any run of appends to an empty window, it holds exactly the newest `capacity` samples, in arrival order |
| Variance.NewestAppend | src/server/variance_detector.py:40 | trimming to the capacity before an append keeps the same samples as trimming after it |
| Variance.SignificanceIsCvAboveThreshold | src/server/variance_detector.py:48-66 | with at least three samples, the verdict is exactly `stdev / mean > threshold`, with cv 0 for a mean ≤ 0, for the stdev whose square is the sample variance |
| Variance.ConstantWindowIsStable | src/server/variance_detector.py:59-83 | a window of identical samples never shows variance for a threshold ≥ 0, and is stable once it holds three samples |
| Variance.InferenceTimeHistory.constructor | src/server/variance_detector.py:16-28 | a new history is empty, keeps its layer and window size, and has the threshold 0.15 |
| Variance.InferenceTimeHistory.AddMeasurement | src/server/variance_detector.py:30-46 | the window becomes the bounded append of the time; the result is the significant-variance verdict on the new window, false below three samples |
| Variance.InferenceTimeHistory.IsStable | src/server/variance_detector.py:68-83 | false below three samples; otherwise the negation of `cv > threshold` |
| Variance.InferenceTimeHistory.GetStats | src/server/variance_detector.py:85-111 | all zero, no extremes and not stable for an empty window; otherwise the mean of the window, its sample variance (0 for one sample), cv² of those two, the minimum and the maximum of the window, and stability exactly when `cv > threshold` fails; the extremes are samples around the mean and the spread is ≥ 0; one sample is stable for a threshold ≥ 0; from three samples on, the stability agrees with `IsStable` |
| Variance.SingleSampleStats | src/server/variance_detector.py:97-108 | a one-sample window has its sample as mean, and a zero variance exceeds no threshold ≥ 0 |
| Variance.CvSquaredNonNegative | src/server/variance_detector.py:101-104 | the reported cv² is never negative |
| Variance.WithSuccessorsMembers | src/server/variance_detector.py:213-222 | a layer is re-tested exactly when it, or the layer before it, showed variance |
| Variance.Cascade | src/server/variance_detector.py:214-222 | the loop over a copy of the set builds V ∪ {i + 1 ∣ i ∈ V} |
| Variance.HasMinimum | src/server/variance_detector.py:224-227 | every non-empty set of layers has a least element, which `sorted` puts first |
| Variance.SortedList | src/server/variance_detector.py:224-227 | `sorted` of a set: strictly increasing, with exactly the set's elements |
| Variance.LookupOrCreate | src/server/variance_detector.py:151-155 | a known layer keeps its history; an unknown one gets a fresh empty history with the detector's window and threshold; no other layer's window changes |
| Variance.Measure | src/server/variance_detector.py:157 | only the measured layer's window changes, by the bounded append; the verdict is that window's; the other side's windows are untouched |
| Variance.Observe | src/server/variance_detector.py:151-157 | the layer is tracked afterwards, its window is the bounded append of the time, the verdict is that window's, and the other side is untouched |
| Variance.VarianceDetector.constructor | src/server/variance_detector.py:122-138 | no histories, no variance layers, both flags down |
| Variance.VarianceDetector.AddDeviceMeasurement | src/server/variance_detector.py:140-170 | the device window of the layer grows by the bounded append; on a significant verdict the device flag is raised and the layer joins the device set, and nothing is ever removed; every edge history, set and flag is unchanged |
| Variance.VarianceDetector.MarkDevice | src/server/variance_detector.py:159-162 | the device flag and set grow exactly on a significant verdict |
| Variance.VarianceDetector.AddEdgeMeasurement | src/server/variance_detector.py:172-202 | the mirror image on the edge side; every device history, set and flag is unchanged |
| Variance.VarianceDetector.MarkEdge | src/server/variance_detector.py:191-194 | the edge flag and set grow exactly on a significant verdict |
| Variance.VarianceDetector.GetLayersNeedingRetest | src/server/variance_detector.py:204-227 | per side, the sorted list of V ∪ {i + 1 ∣ i ∈ V}, with no upper bound on i + 1; the detector is unchanged |
| Variance.VarianceDetector.ShouldRetestOffloading | src/server/variance_detector.py:229-249 | reports device flag ∨ edge flag, clears both flags, and leaves histories and sets alone, so an immediate second call reports false |
| Variance.VarianceDetector.GetLayerStability | src/server/variance_detector.py:251-266 | each side is stable exactly when its window for the layer is stable; an unseen layer has an empty window and is not stable |
| SampleStats.SumConcat | src/server/statistics/statistics_collector.py:65 | the sum of two runs of samples is the sum of their sums |
| SampleStats.SumBounds | src/server/statistics/statistics_collector.py:65 | samples within [lo, hi] sum to within [lo·n, hi·n] |
| SampleStats.SquaredDeviations | src/server/variance_detector.py:59-66 | a sum of squared deviations is never negative |
| SampleStats.SampleVariance | src/server/variance_detector.py:59-66 | the sample variance (n − 1 in the denominator) is never negative |
| SampleStats.Minimum | src/server/statistics/statistics_collector.py:60 | `min`: a sample, and no sample is smaller |
| SampleStats.Maximum | src/server/statistics/statistics_collector.py:61 | `max`: a sample, and no sample is larger |
| SampleStats.MeanBounds | src/server/statistics/statistics_collector.py:62 | samples within [lo, hi] have their mean within [lo, hi] |
| SampleStats.MeanBetweenExtremes | src/server/statistics/statistics_collector.py:60-62 | min ≤ mean ≤ max |
| SampleStats.ConstantSum | src/server/variance_detector.py:59-66 | identical samples sum to n·c and deviate from c by nothing |
| SampleStats.ConstantSamples | src/server/variance_detector.py:59-66 | identical samples have that sample as mean and a zero sample variance |
| SampleStats.Insert | src/server/statistics/statistics_collector.py:63 | inserting adds exactly that one element to the multiset |
| SampleStats.InsertKeepsSorted | src/server/statistics/statistics_collector.py:63 | inserting into a sorted list keeps it sorted |
| SampleStats.InsertAbove | src/server/statistics/statistics_collector.py:63 | a common lower bound of the element and the list bounds the result |
| SampleStats.Sort | src/server/statistics/statistics_collector.py:63 | the order `median` sorts into: a sorted permutation of the samples |
| SampleStats.SortedElementBetweenExtremes | src/server/statistics/statistics_collector.py:63 | every element of the sorted list lies between the minimum and the maximum |
| SampleStats.MedianBetweenExtremes | src/server/statistics/statistics_collector.py:60-63 | min ≤ median ≤ max |
| SampleStats.CvExceedsIsRatio | src/server/variance_detector.py:59-66 | the square-free comparison holds exactly when `stdev / mean > t` (cv 0 for a mean ≤ 0) |
| SampleStats.CvSquaredIsSquare | src/server/variance_detector.py:101-104 | the reported cv² is the square of `stdev / mean`, or 0 for a mean ≤ 0 |
| StatsCollector.AnalyzeTimes | src/server/statistics/statistics_collector.py:42-66 | None exactly for no data; otherwise the name, the count, the sum, the mean, the median, a minimum and a maximum that are samples bounding all samples, the sample variance for two or more samples and 0 for a single one |
| StatsCollector.AnalyzeTimesOrdered | src/server/statistics/statistics_collector.py:57-66 | min ≤ mean ≤ max and min ≤ median ≤ max |
| StatsCollector.AnalyzeConstantTimes | src/server/statistics/statistics_collector.py:57-66 | identical samples report that sample as minimum, maximum, mean and median, with a zero deviation |
| StatsCollector.CalculateOffloadingMetrics | src/server/statistics/statistics_collector.py:116-150 | one row per device layer, rows 0..n−1 in order; device cost is the sum of the first i + 1 device times, edge cost the sum of the edge times after i, transmission the size of `str(i)` (0 when missing) over the mean speed (1 for no speeds), total the sum of the three; a zero mean speed raises ZeroDivisionError |
| StatsCollector.MetricIsSplitCost | src/server/statistics/statistics_collector.py:136-140 | row i is the split cost, at split point i + 1, of the scenario search: the device prefix, the edge suffix and the network term; the last layer has edge cost 0 |
| StatsCollector.Split | src/server/statistics/statistics_collector.py:182 | `split` gives at least one piece, none of them holding the separator |
| StatsCollector.JoinSplit | src/server/statistics/statistics_collector.py:182 | joining the pieces of a split restores the text |
| StatsCollector.SplitWithoutSeparator | src/server/statistics/statistics_collector.py:182 | a text without the separator splits into itself |
| StatsCollector.SplitAfterFirstField | src/server/statistics/statistics_collector.py:182 | the text before the first separator is the first piece |
| StatsCollector.LayerSortKey | src/server/statistics/statistics_collector.py:182 | an all-digit key sorts by its value; any other key with a `_` takes `int` of its second `_` piece, so ValueError for a piece that is not an integer; IndexError exactly when there is no `_` |
| StatsCollector.SortKeyOfIndexKey | src/server/statistics/statistics_collector.py:182 | the key `str(i)` sorts as i |
| StatsCollector.SortKeyOfLayerName | src/server/statistics/statistics_collector.py:182 | the key `"layer_" + str(i)` sorts as i |
| Scenario.CumSum | simulated_results/simulated_scenario.py:35-36 | `np.cumsum` keeps the length |
| Scenario.Reverse | simulated_results/simulated_scenario.py:36 | reversal keeps the length |
| Scenario.CumSumAt | simulated_results/simulated_scenario.py:35 | entry i of the cumulative sum is the sum of the first i + 1 entries |
| Scenario.ReverseAt | simulated_results/simulated_scenario.py:36 | entry i of the reversal is entry n − 1 − i |
| Scenario.SumReverse | simulated_results/simulated_scenario.py:36 | reversal keeps the sum |
| Scenario.SumReversePrefix | simulated_results/simulated_scenario.py:36 | the first m entries of the reversal sum to the last m entries |
| Scenario.DevicePrefix | simulated_results/simulated_scenario.py:35 | one entry per split point 0..N |
| Scenario.DevicePrefixAt | simulated_results/simulated_scenario.py:35 | entry k is the time of the first k device layers |
| Scenario.EdgeSuffix | simulated_results/simulated_scenario.py:36 | one entry per split point 0..N |
| Scenario.EdgeSuffixAt | simulated_results/simulated_scenario.py:36 | entry k is the time of edge layers k..N−1, so entry N is 0 |
| Scenario.NormalizeNetwork | simulated_results/simulated_scenario.py:20-32 | one network time per split point: a scalar or a single value is broadcast, N values get the last one repeated, N + 1 are kept, any other length raises ValueError (IndexError for an empty list when N = 0) |
| Scenario.ArgMin | simulated_results/simulated_scenario.py:39 | `np.argmin`: a least entry, and the first of the least entries |
| Scenario.Totals | simulated_results/simulated_scenario.py:38 | one total per split point |
| Scenario.TotalsAreCosts | simulated_results/simulated_scenario.py:35-38 | the total at k is the device prefix plus the network time plus the edge suffix at k |
| Scenario.OffloadingAlgo | simulated_results/simulated_scenario.py:10-47 | ValueError when the edge and device lists differ in length; otherwise it fails exactly when the network times cannot be normalised, with the same error |
| Scenario.OffloadingAlgoOptimal | simulated_results/simulated_scenario.py:34-45 | the chosen k is in [0, N]; no split point is cheaper; every earlier point is strictly dearer (the first minimum); the three returned times are the summands at k and add up to its total |
| Scenario.ComputeNetworkTimes | simulated_results/simulated_scenario.py:51-57 | one time per layer size, each (size·4/1024)/(speed·stability); a zero effective speed raises ZeroDivisionError when there is a size |
| Scenario.NetworkTimeInverse | simulated_results/simulated_scenario.py:55-56 | a network time multiplied back by the effective speed gives the transferred kilobytes |
| Scenario.ServerSpeedup | simulated_results/simulated_scenario.py:151-166 | 100 up to 10, 10 for 11–25, 100 for 26–30, 10 for 31–35, 1 for 36–60, 10 for 61–75, 2 for 76–90, 100 after |
| Models.Smoothed | src/server/models/model_manager.py:33-37 | the first timing of a key is stored verbatim; later ones store 0.2·elapsed + 0.8·previous |
| Models.SmoothedBetween | src/server/models/model_manager.py:33-35 | the smoothed value lies between the previous value and the new timing, and moves when they differ |
| Models.SmoothedFixedPoint | src/server/models/model_manager.py:35 | a repeated timing is a fixed point of the smoothing |
| Models.LayerKeyRoundTrip | src/server/models/model_manager.py:31-43 | `int(str(layer_id − layer_offset))` gives back the relative index that the detector receives |
| Models.LayerKeysDistinct | src/server/models/model_manager.py:31 | different relative indices get different keys |
| Models.StripTrailingSlash | src/server/models/model_manager.py:201 | exactly one trailing '/' is dropped, and a path without one is unchanged |
| Models.ProductConcat | src/server/models/model_manager.py:139 | the element count of joined shapes is the product of their counts |
| Models.ProductZero | src/server/models/model_manager.py:139 | a shape has no elements exactly when one of its dimensions is 0 |
| Models.LayerSizeInBytes | src/server/models/model_manager.py:111-141 | the size is the element count times the item size: 0 exactly when a dimension or the item size is 0, and the item size times the length for a one-dimensional output |
| Models.LayerSizeOfExtendedShape | src/server/models/model_manager.py:139 | one more dimension multiplies the size by it |
| Models.TimesTable.constructor | src/server/models/model_manager.py:69 | a new table is empty |
| Models.TimesTable.Record | src/server/models/model_manager.py:33-37 | only the recorded key changes, to the smoothed time; every other key keeps its value |
| Models.ModelManager.constructor | src/server/models/model_manager.py:68-83 | the manager keeps the very table and detector it is given, not copies |
| Models.ModelManager.SaveInferenceTimes | src/server/models/model_manager.py:192-207 | a given path is adopted; one trailing '/' is dropped; an empty path raises IndexError |
| Models.ModelManager.TrackInferenceTime | src/server/models/model_manager.py:22-48 | only the key `str(layer_id − layer_offset)` of the table changes, to the smoothed time; a present detector receives the raw time on the edge side: that window grows by the bounded append, the edge flag is raised and the layer joins the edge set exactly when the new window shows variance, and the device windows, flag and set are unchanged; then the path is normalised |
| Models.ModelManager.ReportToDetector | src/server/models/model_manager.py:42-43 | a present detector gets the raw elapsed time for the relative layer on the edge side: its window grows by the bounded append, the edge flag and set grow exactly when the new window shows variance, and the device side is unchanged |
| Models.SharedTableSeesUpdates | src/server/models/model_manager.py:69-75 | two managers on the one default dictionary hold the same table: a timing tracked through the first is the smoothed entry seen through the second |
| Messages.GetLatency | src/server/communication/message_data.py:43-51 | the latency is what must be added to the send time to reach the receive time |
| Messages.GetBytesSize | src/server/communication/message_data.py:54-55 | the size is the payload length in bytes |
| Messages.GetSyntheticLatency | src/server/communication/message_data.py:58-59 | the latency factor is always 1 |
| Messages.GetAvgSpeed | src/server/communication/message_data.py:62-68 | zero when latency·factor is zero; otherwise the speed that, times latency·factor, gives the size |
| Messages.AvgSpeedIsBytesPerSecond | src/server/communication/message_data.py:58-68 | with the factor 1 the estimate is size / latency, and 0 for a zero latency |
| Messages.AvgSpeedTimesLatency | src/server/communication/message_data.py:62-68 | for a positive latency the speed is non-negative and times the latency gives the size back |
| Messages.Lookup | src/server/communication/message_data.py:74-76 | `get(key, None)`: the stored value exactly when the key is present |
| Messages.GetOffloadingInfo | src/server/communication/message_data.py:71-79 | the layer index, the output and the device times, each None exactly when its key is missing, and all three None for content without `.get` |
| Requests.UnpackQuarter | src/server/communication/request_handler.py:94-98 | `int(size / 4)` float32 values that must fill the bytes exactly, and `struct.error` for a negative count |
| Requests.ReadHeader | src/server/communication/request_handler.py:84-93 | the timestamp from bytes [0, 8), the device id from [8, 17) and the message id from [17, 21) as UTF-8, the signed layer index from [21, 25) and the unsigned output size from [25, 29); a short field raises `struct.error`, a bad id UnicodeDecodeError |
| Requests.ReadData | src/server/communication/request_handler.py:94-98 | S/4 outputs that are exactly bytes [29, 29 + S), then the signed count L at [29 + S, 33 + S) and L/4 timings that are exactly the 4·(L/4) bytes after it, any later bytes ignored; a count that does not match its bytes raises `struct.error` |
| Requests.FromRaw | src/server/communication/request_handler.py:77-115 | a parsed message keeps the topic, holds the header fields at their offsets and a content of exactly the index, the outputs read from bytes [29, 29 + S) and the L/4 timings read from the bytes after the count; every extension field unset; only `struct.error` or UnicodeDecodeError escape |
| Requests.FromRawLayout | src/server/communication/request_handler.py:90-98 | in a parsed frame the outputs are exactly bytes [29, 29 + S), the timing count sits at [29 + S, 33 + S), and the timings are exactly the bytes [33 + S, 33 + S + 4·(L/4)) |
| Requests.LatencySince | src/server/communication/request_handler.py:132 | the latency since a finite sender timestamp; none for an infinity or a NaN |
| Requests.HeaderBytes | src/server/communication/request_handler.py:84-93 | a header with id fields of widths a and b is 16 + a + b bytes |
| Requests.DataBytes | src/server/communication/request_handler.py:94-98 | four bytes per output and per timing, plus the count |
| Requests.Frame | src/server/communication/request_handler.py:84-98 | the frame layout both clients write, of length 20 + ids + 4·outputs + 4·timings |
| Requests.FromRawOfFrame | src/server/communication/request_handler.py:77-115 | parsing a frame with a 9-byte and a 4-byte UTF-8 id field gives back the timestamp, both ids, the layer index, the outputs and the timings |
| Requests.HeaderFields | src/server/communication/request_handler.py:84-93 | each header field of a built frame sits at its parser offset |
| Requests.DataFields | src/server/communication/request_handler.py:94-98 | each data field of a built frame sits at its parser offset |
| Requests.ExtendMessageData | src/server/communication/request_handler.py:118-144 | the parsed fields are kept; the reception time, the payload length and the factor 1 are recorded; latency = received − sent for a finite timestamp; speed = length / latency (0 for a zero latency); the offloading fields are those of `get_offloading_info` |
| Requests.ExtendedParseHasOffloadingFields | src/server/communication/request_handler.py:31-33 | after parsing and extending, the offloading fields are exactly the parsed layer index, outputs and times |
| Requests.DeviceLayerKeysDistinct | src/server/communication/request_handler.py:37 | different layers get different keys `layer_i` |
| Requests.RecordDeviceTimes | src/server/communication/request_handler.py:36-37 | key `layer_i` holds the i-th reported time; every other key keeps its value; no other key appears |
| Requests.HandleRegistration | src/server/communication/request_handler.py:22-23 | the device id is handed back unchanged |
| Requests.HandleOffloadingLayer | src/server/communication/request_handler.py:56-57 | the layer is handed back unchanged |
| HttpClient.IdSymbol | server_client_light/client/http_client.py:16 | each alphabet index names an upper-case letter or a digit |
| HttpClient.GenerateMessageId | server_client_light/client/http_client.py:15-16 | four ASCII symbols from A–Z0–9 |
| HttpClient.GenerateMessageIdInjective | server_client_light/client/http_client.py:16 | two draws give the same id exactly when they are the same draws |
| HttpClient.PackPixelFields | server_client_light/client/http_client.py:38 | red r>>3 sits in bits 11–15, green g>>2 in bits 5–10 and blue b>>3 in bits 0–4 of the word |
| HttpClient.SendImagePayload | server_client_light/client/http_client.py:30-42 | the body is the 96 × 96 words in row-major order (y outer, x inner), high byte first: 18432 bytes |
| HttpClient.SendImagePixel | server_client_light/client/http_client.py:35-40 | pixel (y, x) is the big-endian word at bytes 2(96y + x) and 2(96y + x) + 1 |
| HttpClient.GetOffloadingLayer | server_client_light/client/http_client.py:47-56 | the server's index on status 200, and 58 for a missing key or another status |
| HttpClient.RunSplitInference | server_client_light/client/http_client.py:81-103 | runs layers 0..stop_layer in order and returns one time per layer, each the difference of its clock readings |
| HttpClient.HttpFrame | server_client_light/client/http_client.py:105-117 | timestamp, NUL-padded but never cut ids, layer index, output size, outputs, 4·len(times) and the timings; a non-ASCII id raises UnicodeEncodeError, an out-of-range number `struct.error`; the header is 29 bytes exactly when the ids fit 9 and 4 bytes |
| HttpClient.SendInferenceResult | server_client_light/client/http_client.py:105-117 | growing the buffer field by field builds exactly that frame, with the same errors |
| HttpClient.ParseAfterSend | server_client_light/client/http_client.py:109-117 | the server parses back the layer index, the outputs, the timings, the timestamp and the NUL-padded ids |
| HttpClient.IdFieldDecodes | server_client_light/client/http_client.py:111-112 | a padded ASCII id decodes to the id followed by the NULs |
| HttpClient.FrameIsParserFrame | server_client_light/client/http_client.py:109-117 | the client's buffer is the frame layout the parser reads |
| HttpClient.DefaultDeviceIdFillsField | server_client_light/client/http_client.py:11 | "device_01" fills the 9-byte field exactly |
| HttpClient.GeneratedIdTravels | server_client_light/client/http_client.py:15-16 | with its own ids the client's frame parses, and the server sees the device id and the message id unchanged |
| WebsocketClient.HexDigitValue | server_client_light/client/websocket_client.py:43 | every hex digit reads back as its value |
| WebsocketClient.GenerateMessageUuid | server_client_light/client/websocket_client.py:42-43 | four ASCII lowercase hex digits |
| WebsocketClient.UuidPrefixSpellsDraw | server_client_light/client/websocket_client.py:43 | the four digits read back as a number give the 16 random bits they were drawn from |
| WebsocketClient.WsPackIsPackPixel | server_client_light/client/websocket_client.py:58 | the masking packing equals the HTTP client's shifting packing on every pixel |
| WebsocketClient.SameWordsAsHttpClient | server_client_light/client/websocket_client.py:54-58 | both clients flatten every image into the same words |
| WebsocketClient.ConvertToRgb565Raw | server_client_light/client/websocket_client.py:49-62 | the words of an h × w image row by row, low byte first: 2·w·h bytes |
| WebsocketClient.AppendRowBytes | server_client_light/client/websocket_client.py:55-61 | one row's inner loop extends the bytes by that row's words, low byte first |
| WebsocketClient.RawLength | server_client_light/client/websocket_client.py:54-61 | the raw image is 2·w·h bytes |
| WebsocketClient.ConvertedPixel | server_client_light/client/websocket_client.py:56-61 | pixel (y, x) is the word at bytes 2(wy + x) (low) and 2(wy + x) + 1 (high) |
| WebsocketClient.IdField | server_client_light/client/websocket_client.py:85-86 | the id field is exactly the width: the UTF-8 id padded with NULs, or cut to the width |
| WebsocketClient.WsFrame | server_client_light/client/websocket_client.py:80-92 | `struct.error` exactly for an out-of-range number; otherwise 29 + output + 4 + 4·timings bytes |
| WebsocketClient.WsFrameHeader | server_client_light/client/websocket_client.py:84-90 | whatever the ids, the fields sit at the parser's offsets: the header is always 29 bytes |
| WebsocketClient.MisalignedOutputRejected | server_client_light/client/websocket_client.py:88-89 | an output that is not whole float32 values makes the server's parser fail |
| WebsocketClient.AppendTimes | server_client_light/client/websocket_client.py:91-92 | the loop appends one float32 per timing |
| WebsocketClient.PostDeviceInferenceResult | server_client_light/client/websocket_client.py:80-94 | extending the buffer field by field builds exactly that frame |
| WebsocketClient.ParseAfterPost | server_client_light/client/websocket_client.py:83-92 | for an aligned output and ids that fit, the server parses back the layer index, the outputs, the timings and the padded ids |
| WebsocketClient.IdFieldDecodes | server_client_light/client/websocket_client.py:85-86 | an id that fits decodes to the id followed by NULs |
| WebsocketClient.FullIdsTravel | server_client_light/client/websocket_client.py:85-86 | ids that fill their fields exactly reach the server unchanged |
| WebsocketClient.OwnIdsTravel | server_client_light/client/websocket_client.py:20-43 | the client's own device id and uuid prefix reach the server unchanged |
| WebsocketClient.OwnIdsFit | server_client_light/client/websocket_client.py:20-43 | "device_01" and every uuid prefix fill their fields exactly |
| WebsocketClient.Step | server_client_light/client/websocket_client.py:101-113 | a registration sets the registered flag and the best layer (None when absent); a layer update changes only the best layer; anything else changes nothing |
| WebsocketClient.RegisteredIffRegistrationSeen | server_client_light/client/websocket_client.py:104-105 | the client is registered exactly when it started so or a registration arrived, so the wait loop ends exactly then |
| WebsocketClient.LastUpdateWins | server_client_light/client/websocket_client.py:106-109 | the best layer is the one named by the last registration or layer update |
| WebsocketClient.IgnoredTail | server_client_light/client/websocket_client.py:111-113 | messages of other channels and non-JSON messages change nothing |
| WebsocketClient.Client.constructor | server_client_light/client/websocket_client.py:25-26 | a fresh client is unregistered and knows no best layer |
| WebsocketClient.Client.HandleMessage | server_client_light/client/websocket_client.py:101-113 | the globals move by one step of the handler |
| WebsocketClient.Client.HandleMessages | server_client_light/client/websocket_client.py:97-113 | the globals after the stream are those of handling its messages in order |
| InputConverter.FieldsSpellWord | src/server/models/model_input_converter.py:22-24 | the fields are 5, 6 and 5 bits wide and spell the word |
| InputConverter.FieldsOf | src/server/models/model_input_converter.py:22-24 | a word built from fields gives back exactly those fields |
| InputConverter.ScaleRange | src/server/models/model_input_converter.py:25-28 | every channel is in [0, 255], field 0 gives 0 and the top field gives 255 |
| InputConverter.ScaleMonotone | src/server/models/model_input_converter.py:25-28 | channels are monotone in the field |
| InputConverter.ScaleIsNearest | src/server/models/model_input_converter.py:25-28 | the integer channel is less than one half from 255·f/max, so it is `round` of it with no tie |
| InputConverter.NearestIsUnique | src/server/models/model_input_converter.py:25-28 | no other integer is that close, so the integer formula is the rounded value |
| InputConverter.DecodePixel | src/server/models/model_input_converter.py:22-28 | each channel is the scaled value of its field |
| InputConverter.UnpackWords | src/server/models/model_input_converter.py:20 | `struct.unpack(f'>{n}H', s)`: n words exactly when s has 2n bytes, else `struct.error` |
| InputConverter.UnpackAfterPack | src/server/models/model_input_converter.py:20 | unpacking big-endian packed words gives them back |
| InputConverter.DecodeImage | src/server/models/model_input_converter.py:13-31 | `height` rows of `width` pixels exactly when the image has 2·height·width bytes or more, else `struct.error` |
| InputConverter.DecodedPixelAt | src/server/models/model_input_converter.py:19-28 | pixel (i, j) decodes the big-endian word at bytes 2(i·width + j) and 2(i·width + j) + 1 |
| InputConverter.ConvertRgb565ToArray | src/server/models/model_input_converter.py:13-31 | the loop computes exactly that image, or the same error |
| InputConverter.DecodeRowWords | src/server/models/model_input_converter.py:21-29 | the inner loop decodes row i |
| InputConverter.WordInRow | src/server/models/model_input_converter.py:19-20 | word j of row i's slice is the word at 2(i·width + j) |
| InputConverter.ShortImage | src/server/models/model_input_converter.py:19-20 | an image too short for some row raises `struct.error` |
| InputConverter.FieldsOfWord | src/server/models/model_input_converter.py:22-24 | the arithmetic fields of a word are its bit fields |
| InputConverter.FieldsOfPackedPixel | src/server/models/model_input_converter.py:22-24 | on a word the HTTP client packed, the fields are r>>3, g>>2 and b>>3 of its pixel |
| InputConverter.DecodeUpload | src/server/models/model_input_converter.py:17-31 | decoding an HTTP client upload as 96 × 96 gives, at (i, j), the scaled top bits of the uploaded pixel (i, j) |
| Delay.ParseDelayType | src/server/delay_simulator.py:13-19 | `DelayType(s)`: the member whose value is s, and ValueError for any other text |
| Delay.ParseTypeName | src/server/delay_simulator.py:13-19 | every member parses back from its value |
| Delay.NewDelaySimulator | src/server/delay_simulator.py:33-50 | disabled with type NONE without a configuration or with "enabled" not true; an enabled one takes its type ("none" by default), and an unknown type raises ValueError |
| Delay.NewSimulatorType | src/server/delay_simulator.py:50 | an enabled simulator is built exactly for a missing or known type, and then has that type |
| Delay.DisabledMeansNoDelay | src/server/delay_simulator.py:48-50 | a disabled simulator always has type NONE |
| Delay.CalculateDelay | src/server/delay_simulator.py:67-90 | the static value (0 by default); a gaussian draw cut at 0; the uniform draw; the exponential draw for a positive mean and 0 otherwise; 0 for NONE |
| Delay.ApplyDelay | src/server/delay_simulator.py:52-65 | nothing for a disabled simulator or NONE; otherwise the computed delay, slept exactly when it is positive |
| Delay.AppliedDelayBounds | src/server/delay_simulator.py:72-88 | a gaussian delay is never negative; an exponential one with mean ≤ 0 sleeps not at all |
| Delay.InfoText | src/server/delay_simulator.py:94-95 | the disabled description is "No delay" |
| Delay.GetDelayInfo | src/server/delay_simulator.py:92-114 | "No delay" exactly when disabled or NONE; for each enabled type the numbers its text formats: the static value, the gaussian mean and deviation, the uniform bounds, each in milliseconds from the configured value or 0; the exponential rate 1/mean for a positive mean and 0 otherwise, with the mean in milliseconds |
| Delay.NoDelayIffDescribed | src/server/delay_simulator.py:59-95 | the simulator describes itself as "No delay" exactly when it applies no delay |
| SimRunner.ClientId | simulation_runner.py:202-206 | client 0 gets no id (it generates its own), every other client an id |
| SimRunner.ClientIdsDistinct | simulation_runner.py:206 | different clients get different ids `sim_client_i` |
| SimRunner.LayerValuesAppend | simulation_runner.py:319-320 | filtering two runs of entries filters each run |
| SimRunner.LayerValuesSound | simulation_runner.py:319-320 | every kept value is the value of a `layer_` entry holding a number |
| SimRunner.LayerValuesComplete | simulation_runner.py:319-320 | the value of every `layer_` entry holding a number is kept |
| SimRunner.NoLayersNoTimes | simulation_runner.py:319-320 | with no `layer_` number entries nothing is kept |
| SimRunner.Summarize | simulation_runner.py:325-330 | 0 for average, minimum and maximum when nothing was kept; otherwise the mean, a minimum and a maximum that are values bounding all values, and min ≤ avg ≤ max |
| SimRunner.MakeRow | simulation_runner.py:322-333 | the row carries the inference id, the counts of the kept values, and for each side the summary of exactly the kept values: zeros when there are none, otherwise ordered |
| SimRunner.SimulationRunner.constructor | simulation_runner.py:166-176 | no writer, counter 0, no rows |
| SimRunner.SimulationRunner.CreateScenarioFolder | simulation_runner.py:381-405 | the counter restarts at 0 and a new, empty file is open |
| SimRunner.SimulationRunner.CloseScenarioFolder | simulation_runner.py:415-421 | the file is closed; counter and rows stay |
| SimRunner.SimulationRunner.RecordInference | simulation_runner.py:311-336 | without an open file nothing changes, counter included; otherwise the counter goes up by one and a row numbered with its new value is written, so rows stay numbered 1, 2, … |
| Bytes.UnpackSingles | src/server/communication/request_handler.py:94-98 | `struct.unpack(f'<{n}f', b)`: n values exactly when b has 4n bytes, and those values are b's groups |
| Bytes.UnpackFlatten | src/server/communication/request_handler.py:94-98 | unpacking the bytes of n values gives the values back |
| Bytes.PackU32 | server_client_light/client/http_client.py:114 | four bytes whose unsigned value is n, and `struct.error` outside [0, 2³²) |
| Bytes.PackI32 | server_client_light/client/http_client.py:113 | four bytes, and `struct.error` outside [−2³¹, 2³¹) |
| Bytes.UnpackU32 | src/server/communication/request_handler.py:92 | exactly four bytes are needed, else `struct.error`; the value is below 2³² |
| Bytes.UnpackI32 | src/server/communication/request_handler.py:90 | exactly four bytes are needed, else `struct.error`; the value is in [−2³¹, 2³¹) |
| Bytes.UnpackPackU32 | src/server/communication/request_handler.py:92 | an unsigned value packed and unpacked is itself |
| Bytes.UnpackPackI32 | src/server/communication/request_handler.py:90 | a signed value packed and unpacked is itself |
| Bytes.U32RoundTrip | src/server/communication/request_handler.py:92 | the four bytes of n read back as n |
| Bytes.U32BytesRoundTrip | src/server/communication/request_handler.py:92 | any four bytes are the bytes of their value |
| Bytes.DoubleValue | src/server/communication/message_data.py:46-47 | a timestamp is a number unless its exponent is all ones (an infinity or a NaN) |
| Bytes.NulPad | server_client_light/client/http_client.py:111-112 | `ljust(width, b'\x00')`: the bytes followed by NULs up to the width; a longer value is unchanged |
| Bytes.Truncate | server_client_light/client/websocket_client.py:85-86 | `b[:n]`: the first n bytes, or all of them |
| Bytes.Slice | src/server/communication/request_handler.py:84-98 | Python slicing for a non-negative start: the bytes between the bounds, clipped to the payload, empty for an end at or before the start; a negative end is not counted from the back |
| Bytes.AsciiEncode | server_client_light/client/http_client.py:111-112 | one byte per character, and UnicodeEncodeError exactly for a non-ASCII character |
| Bytes.Utf8Decode | src/server/communication/request_handler.py:86-88 | strict UTF-8 decoding fails only with UnicodeDecodeError |
| Bytes.Utf8DecodeAfterEncode | src/server/communication/request_handler.py:86-88 | decoding an encoded text followed by well-formed bytes gives the text followed by their text |
| Bytes.Utf8RoundTrip | src/server/communication/request_handler.py:86-88 | decoding the UTF-8 encoding of a text gives the text back |
| Bytes.AsciiIsUtf8 | server_client_light/client/http_client.py:111-112 | for ASCII text the ASCII and UTF-8 encodings agree |
| Bytes.DecodeNuls | src/server/communication/request_handler.py:86-88 | NUL padding decodes to NUL characters |
| Decimal.NatToString | src/server/communication/request_handler.py:37 | `str(n)`: digits with no leading zero |
| Decimal.NatToStringRoundTrip | src/server/statistics/statistics_collector.py:182 | the digits of n read back as n |
| Decimal.NatToStringInjective | src/server/communication/request_handler.py:37 | different numbers have different texts |
| Decimal.IntToString | src/server/models/model_manager.py:31 | `str(i)`: digits exactly for i ≥ 0 |
| Decimal.ParseInt | src/server/models/model_manager.py:43 | `int(s)`: the value of a digit string, optionally signed, and ValueError for any other text |
| Decimal.IntToStringRoundTrip | src/server/models/model_manager.py:31-43 | `int(str(i)) == i` |
| Decimal.IntToStringInjective | src/server/models/model_manager.py:31 | different integers have different texts |
| Images.RowWords | server_client_light/client/http_client.py:36-39 | one word per pixel of the row, in order |
| Images.RowMajorAt | server_client_light/client/http_client.py:35-39 | word y·width + x of a rectangular image is the word of pixel (y, x) |
| Images.RowMajorLength | server_client_light/client/http_client.py:35-39 | a rectangular image has height·width words |
| Images.RowMajorCongruent | server_client_light/client/websocket_client.py:54-58 | packings that agree on every pixel flatten every image alike |
| Images.WordBytes | server_client_light/client/websocket_client.py:60-61 | the high and low bytes give the word back |
| Images.BigEndian16At | server_client_light/client/http_client.py:40 | `>H` puts word i's high byte at 2i and its low byte at 2i + 1 |
| Images.LittleEndian16At | server_client_light/client/websocket_client.py:60-61 | the low byte first at 2i, then the high byte |
| Images.LittleEndian16Append | server_client_light/client/websocket_client.py:60-61 | one more word appends its low and then its high byte |
| Images.ByteOrdersSwapped | server_client_light/client/websocket_client.py:60-61 | the two clients' byte orders of the same words are pairwise swapped |

## Left out

- The standard deviation is never computed: its square (the sample variance) is reported, and cv is reported as cv². Python's floating-point rounding is not modelled. All arithmetic on times is exact real arithmetic.
- Variance.InferenceTimeHistory.GetStats: reports the variance and cv² instead of the standard deviation and cv, because the model takes no square roots.
- StatsCollector.AnalyzeTimes: reports the squared standard deviation, for the same reason.
- Bytes.Slice: a negative end is not counted from the back of the payload. The parser's only such end is 33 + S + L for a timing count L < 0; it is non-negative for L > −4, where the slice is empty either way, and for L ≤ −4 the negative count raises `struct.error` before the bytes matter.
- Models.ModelManager.constructor: the mutable `{}` default of `inference_times` is not a default here, because Dafny has no module-level mutable state; callers that omit the dictionary are stood for by callers passing one shared `TimesTable` (`Models.SharedTableSeesUpdates`).
- Float32 payload values are opaque 4-byte groups. Their numeric value, NaN payloads and the conversion of Python floats to float32 (line 117 of the HTTP client, line 92 of the WebSocket client) are not modelled. The timings arrive as given groups.
- Requests.LatencySince: a timestamp that is an infinity or a NaN gives no latency, where Python would compute an infinity or a NaN.
- File and network I/O are not modelled: JSON files, CSV files, HTTP posts, WebSocket sends, NTP, TensorFlow and TFLite interpreters, PIL image loading and resizing, and `time.sleep`. The values they would produce are parameters: clock readings, random draws, response status and body, and file contents.
- Randomness is not modelled. `random.choices`, `uuid.uuid4`, `random.gauss`, `random.uniform` and `random.expovariate` are given as the values they drew. Their distributions are not modelled.
- Delay.GetDelayInfo: returns the numbers that the description formats, not the formatted text. Only the "No delay" text is modelled exactly.
- HttpClient.PackPixel: follows NumPy 1.x, which promotes the `uint8` channels before shifting. Under NumPy 2 the shifts would wrap at 8 bits.
- Decimal.ParseInt: models `int(s)` on ASCII text without surrounding blanks or underscores. `str.isdigit` is likewise taken on ASCII digits only.
- Bytes.Utf8Decode: characters are Unicode scalar values. Strings holding lone surrogates are not modelled.
- Requests.ExtendMessageData: returns the extended message as a new value. Python updates the parsed object in place and returns it, and no other reference to it is observed.
- Requests.FromRaw: the JSON text it also stores as `payload` is not modelled. Its `json.JSONDecodeError` handler is unreachable, because nothing in the parser decodes JSON.
- SimRunner.LayerValues: JSON values are reduced to numbers, booleans (which Python counts as `int`) and non-numbers.
- SimRunner.SimulationRunner.RecordInference: the timestamp column of each row is not modelled.
- The WebSocket client's `message_uuid` global is a parameter of the frame builder, and its `offset` global is folded into the timestamp.
- The image height and width are `nat`, and `np.array` shape details are not modelled. A 0-row image is an empty sequence.
- `VarianceDetector.get_all_stats`, `analyze_inference_times`, `analyze_layer_sizes` and the CSV writers of the statistics collector only read and write files, so they are not modelled.
- `handle_device_input`, `_load_stats` and the rest of `handle_device_inference_result` (running the remaining layers, saving the message and the static offloading search) are not modelled: they are file I/O or code outside this model. The device-time update inside it is modelled as `Requests.RecordDeviceTimes`.
- The random generators of the simulated scenarios and `save_data_csv` are not modelled; only the speed-up schedule of the scenario loop is.
- The HTTP client uploads big-endian words and the WebSocket client sends little-endian ones, while the server decodes big-endian. A WebSocket upload therefore reaches the decoder byte-swapped (`Images.ByteOrdersSwapped`). The model states both orders and does not decode the WebSocket upload.
- The inner loops of the image encoders and decoder, and of the detector's history update, are separate helper methods (`WebsocketClient.AppendRowBytes`, `InputConverter.DecodeRowWords`, `Variance.Observe`), so that each loop's proof stays small.
