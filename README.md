# Eye-tracking heatmap plugin: a verified model

This project models the sequential logic of a VR eye-tracking plugin for
Unreal Engine. During a recording the plugin samples which object the player
looks at and where on its UV map. It saves those samples, loads them back,
repaints them as a heatmap on "heatmap-ready" actors, and aggregates them into
attention metrics per object.

What is modelled:

- **Attention-metrics aggregator.**
  - The samples are grouped into sessions: maximal runs on one object.
  - A mid-recording session shorter than the threshold is dropped.
  - A session whose object has no metrics name is dropped.
  - The final open session is always counted.
  - Surviving sessions are folded into a table keyed by metrics name.
  - A loop method with running accumulators is proved against a functional specification (`Sessions`, `AllKept`, `Tabulate`).
- **Sorting of the metrics table** by one of the sort keys.
- **The metrics-name filter.**
- **The cache of the actor last painted on.**
- **Painting a loaded heatmap.**
- **The record codec**, over an abstract JSON tree.
- **The recorder** on the eye-tracking character:
  - the tracking toggle;
  - guarded appends;
  - the focus highlight.
- **The paint-brush scale divisor.**
- **Zero-padded integer formatting and the ordering of three axes.**
- **Material-slot merging and instancing** on a heatmap-ready actor.
- **In the editor:**
  - waypoint renumbering when actors are dropped;
  - the reset of the material configuration.

Engine strings compare and hash without regard to ASCII case. The model
therefore compares object names, metrics names and JSON field names through
`HeatmapTypes.Fold`, and a table keeps the spelling of a name as it was first
counted. An engine map keyed by strings never holds two keys that are equal
ignoring case (`HeatmapTypes.CaseDistinctKeys`). It is looked up through
`HeatmapTypes.FoldKeys`, the same map keyed by folded names, so a name finds
the entry whose key it equals ignoring case. The session functions take their
object-name map in that folded form. Times, UVs and scales are `real`. The defaults of the header's
structs are the constants `DefaultDataPoint`, `DefaultEntry` and
`DefaultMetricsThreshold` in `HeatmapTypes`.

Behaviour of the code worth noting:

- **A session's duration is the sum of gaps between consecutive samples of that session.** The gap to the next object's first sample belongs to no session. In the recording `(0,A) (1,A) (2,B) (5,A)`, B's session holds one sample and lasts 0. `MetricsExample.RecordingExample` proves the table the code produces for it.
- **A too-wide field is cut short.** The zero-padded formatter writes through a fixed 100-character buffer, so a width above 99 yields 99 characters (`AdditionalUtility.WideWidthIsCut`).
- **Waypoint numbering leaves a gap.** The dropped waypoint is already one of the level's n waypoints. All n are sorted by their old indices and numbered by position, then the dropped one is set to n. So the indices in use are 0 to n except the dropped one's sorted position p. With one other waypoint, the dropped one gets 2 (`EditorModule.RenumberWaypoints`).
- **A JSON field is found whatever the case of its key.** The engine's object holds its fields in a case-insensitive map, and a later member replaces an earlier one whose key compares equal (`JsonCodec.LookupFindsLast`).
- **Resetting a heatmap clears it.** `SetupMaterials` draws the canvases onto a new blank render target, so every earlier stroke is gone.

## Model

| member | source | states |
|---|---|---|
| AttentionSessions.Sessions | Plugins/EyeTrackingUtilityRuntime/Source/EyeTrackingUtilityRuntime/Private/HeatmapRT.cpp:178-200 | a recording is grouped into non-empty runs, none when the recording is empty, the last run ending on the last sample |
| AttentionSessions.SessionsCoverSamples | Plugins/EyeTrackingUtilityRuntime/Source/EyeTrackingUtilityRuntime/Private/HeatmapRT.cpp:178-200 | concatenating the sessions gives back the recording, so every sample lies in exactly one session, in order |
| AttentionSessions.SessionsOnOneObject | Plugins/EyeTrackingUtilityRuntime/Source/EyeTrackingUtilityRuntime/Private/HeatmapRT.cpp:187-194 | every sample of a session is on the same object (names compared case-insensitively) |
| AttentionSessions.SessionsAreMaximal | Plugins/EyeTrackingUtilityRuntime/Source/EyeTrackingUtilityRuntime/Private/HeatmapRT.cpp:196-200 | consecutive sessions are on different objects, so no session could be extended |
| AttentionSessions.GapSumTelescopes | Plugins/EyeTrackingUtilityRuntime/Source/EyeTrackingUtilityRuntime/Private/HeatmapRT.cpp:187-194 | a session's accumulated duration equals its last sample's time minus its first sample's time |
| AttentionSessions.SingleSampleSessionLastsZero | Plugins/EyeTrackingUtilityRuntime/Source/EyeTrackingUtilityRuntime/Private/HeatmapRT.cpp:196-202 | a one-sample session has duration 0; the gap to the next object is not counted |
| AttentionSessions.SessionDurationsNonNegative | Plugins/EyeTrackingUtilityRuntime/Source/EyeTrackingUtilityRuntime/Private/HeatmapRT.cpp:187-194 | with non-decreasing timestamps every session's duration is at least 0 |
| AttentionSessions.GapSumSnoc | Plugins/EyeTrackingUtilityRuntime/Source/EyeTrackingUtilityRuntime/Private/HeatmapRT.cpp:189-193 | extending a session by one sample adds exactly that sample's gap to the previous one |
| AttentionSessions.KeptMembers | Plugins/EyeTrackingUtilityRuntime/Source/EyeTrackingUtilityRuntime/Private/HeatmapRT.cpp:206-218 | a closed session is counted iff it lasts at least the threshold and its object has a metrics name; the counted value carries that name, the session's start and its duration |
| AttentionSessions.LastCountedMembers | Plugins/EyeTrackingUtilityRuntime/Source/EyeTrackingUtilityRuntime/Private/HeatmapRT.cpp:196-282 | the closed runs counted by threshold followed by the final run counted regardless hold exactly the runs that are final or long enough and have a metrics name |
| AttentionSessions.AllKeptMembers | Plugins/EyeTrackingUtilityRuntime/Source/EyeTrackingUtilityRuntime/Private/HeatmapRT.cpp:196-282 | over a whole recording, a session is counted iff it is the final one or lasts at least the threshold, and its object has a metrics name |
| AttentionSessions.FinalSessionAlwaysCounted | Plugins/EyeTrackingUtilityRuntime/Source/EyeTrackingUtilityRuntime/Private/HeatmapRT.cpp:252-282 | the trailing session is counted with no threshold check whenever its object is mapped, even with duration 0 |
| AttentionSessions.SameObjectStep | Plugins/EyeTrackingUtilityRuntime/Source/EyeTrackingUtilityRuntime/Private/HeatmapRT.cpp:187-194 | a sample on the same object as its predecessor extends the open session and opens no new one |
| AttentionSessions.NewObjectStep | Plugins/EyeTrackingUtilityRuntime/Source/EyeTrackingUtilityRuntime/Private/HeatmapRT.cpp:196-204 | a sample on another object closes the open session and opens a new one holding only that sample |
| AttentionSessions.FirstSampleStep | Plugins/EyeTrackingUtilityRuntime/Source/EyeTrackingUtilityRuntime/Private/HeatmapRT.cpp:180-185 | the first sample opens the first session |
| AttentionSessions.EmptyRecordingKeepsNothing | Plugins/EyeTrackingUtilityRuntime/Source/EyeTrackingUtilityRuntime/Private/HeatmapRT.cpp:164-176 | an empty recording counts no session, so the table stays empty |
| MetricsTable.Positions | Plugins/EyeTrackingUtilityRuntime/Source/EyeTrackingUtilityRuntime/Private/HeatmapRT.cpp:229-245 | the positions of the counted sessions with a given metrics name are exactly those positions, strictly increasing |
| MetricsTable.TabulateComputes | Plugins/EyeTrackingUtilityRuntime/Source/EyeTrackingUtilityRuntime/Private/HeatmapRT.cpp:223-245 | a name has an entry iff some session was counted for it; the entry's indices are those sessions' positions, its count their number, its total the sum of their durations, its first-attention time the first one's start, its average total / count |
| MetricsTable.AddSessionCreates | Plugins/EyeTrackingUtilityRuntime/Source/EyeTrackingUtilityRuntime/Private/HeatmapRT.cpp:223-236 | folding a session for a new name creates the entry (duration, duration, start, 1, [index]) |
| MetricsTable.AddSessionExtends | Plugins/EyeTrackingUtilityRuntime/Source/EyeTrackingUtilityRuntime/Private/HeatmapRT.cpp:238-245 | folding a session into an existing entry adds the duration, recomputes the average, increments the count, appends the index and keeps the first-attention time |
| MetricsTable.AddSessionElsewhere | Plugins/EyeTrackingUtilityRuntime/Source/EyeTrackingUtilityRuntime/Private/HeatmapRT.cpp:221-246 | folding a session changes no entry of another name |
| MetricsTable.TabulateInvariants | Plugins/EyeTrackingUtilityRuntime/Source/EyeTrackingUtilityRuntime/Private/HeatmapRT.cpp:223-245 | every entry has count equal to its number of indices, average equal to total / count, and strictly increasing indices |
| MetricsTable.IndicesOwnedOnce | Plugins/EyeTrackingUtilityRuntime/Source/EyeTrackingUtilityRuntime/Private/HeatmapRT.cpp:166-247 | every sequence index 0..n-1 belongs to exactly one entry, the one of its session's name |
| MetricsTable.TabulateKeysDistinct | Plugins/EyeTrackingUtilityRuntime/Source/EyeTrackingUtilityRuntime/Private/HeatmapRT.cpp:223-236 | the table's key list names every entry exactly once |
| MetricsTable.TabulateKeySpelling | Plugins/EyeTrackingUtilityRuntime/Source/EyeTrackingUtilityRuntime/Private/HeatmapRT.cpp:223-229 | each key keeps the spelling of the first counted session of that name |
| MetricsTable.TabulateKeyOrder | Plugins/EyeTrackingUtilityRuntime/Source/EyeTrackingUtilityRuntime/Private/HeatmapRT.cpp:223-236 | keys are listed in the order their names were first counted |
| MetricsTable.AddSessionMonotone | Plugins/EyeTrackingUtilityRuntime/Source/EyeTrackingUtilityRuntime/Private/HeatmapRT.cpp:238-245 | folding a session of non-negative duration removes no entry and lowers no total |
| MetricsTable.TotalsNonNegative | Plugins/EyeTrackingUtilityRuntime/Source/EyeTrackingUtilityRuntime/Private/HeatmapRT.cpp:223-245 | with non-negative durations every total is non-negative |
| MetricsTable.DurationSumWithoutPositions | Plugins/EyeTrackingUtilityRuntime/Source/EyeTrackingUtilityRuntime/Private/HeatmapRT.cpp:223-245 | a name with no counted session contributes no time |
| HeatmapRuntime.HeatmapRT.CalculateAttentionMetrics | Plugins/EyeTrackingUtilityRuntime/Source/EyeTrackingUtilityRuntime/Private/HeatmapRT.cpp:162-283 | for any engine name map, the table left is exactly the one tabulated from the counted sessions of the loaded recording, each session's object name finding the map entry whose key it equals ignoring case |
| HeatmapRuntime.HeatmapRT.AggregateSessions | Plugins/EyeTrackingUtilityRuntime/Source/EyeTrackingUtilityRuntime/Private/HeatmapRT.cpp:164-282 | the single-pass loop with running accumulators leaves exactly the table tabulated from the counted sessions, for a map keyed by folded names |
| HeatmapTypes.FoldKeysLookup | Plugins/EyeTrackingUtilityRuntime/Source/EyeTrackingUtilityRuntime/Private/HeatmapRT.cpp:211-260 | in the folded form of an engine map, a name finds the value of the key it equals ignoring case, and finds nothing when no key equals it ignoring case |
| HeatmapRuntime.HeatmapRT.StoreSession | Plugins/EyeTrackingUtilityRuntime/Source/EyeTrackingUtilityRuntime/Private/HeatmapRT.cpp:221-246 | storing one session folds it into the table under the given index |
| HeatmapRuntime.TabulateSnoc | Plugins/EyeTrackingUtilityRuntime/Source/EyeTrackingUtilityRuntime/Private/HeatmapRT.cpp:221-247 | tabulating one more counted session folds it in under the next sequence index |
| HeatmapRuntime.FirstStep | Plugins/EyeTrackingUtilityRuntime/Source/EyeTrackingUtilityRuntime/Private/HeatmapRT.cpp:164-185 | after the first sample the loop state describes an empty table and an open session starting at that sample |
| HeatmapRuntime.SameStep | Plugins/EyeTrackingUtilityRuntime/Source/EyeTrackingUtilityRuntime/Private/HeatmapRT.cpp:187-194 | a same-object sample adds its gap to the running duration and keeps the table |
| HeatmapRuntime.CloseStep | Plugins/EyeTrackingUtilityRuntime/Source/EyeTrackingUtilityRuntime/Private/HeatmapRT.cpp:196-248 | on an object change a short or unmapped session leaves table and index unchanged, otherwise it is stored under the current index and the index advances; a new session opens at the sample |
| HeatmapRuntime.FinalStep | Plugins/EyeTrackingUtilityRuntime/Source/EyeTrackingUtilityRuntime/Private/HeatmapRT.cpp:252-282 | after the loop the open session is stored when its object is mapped, giving all counted sessions |
| MetricsSort.LexLessIrreflexive | Plugins/EyeTrackingUtilityRuntime/Source/EyeTrackingUtilityRuntime/Private/HeatmapRT.cpp:304-305 | no name sorts before itself |
| MetricsSort.LexLessTransitive | Plugins/EyeTrackingUtilityRuntime/Source/EyeTrackingUtilityRuntime/Private/HeatmapRT.cpp:304-305 | the name order is transitive |
| MetricsSort.LexLessTotal | Plugins/EyeTrackingUtilityRuntime/Source/EyeTrackingUtilityRuntime/Private/HeatmapRT.cpp:304-305 | any two different names are ordered one way or the other |
| MetricsSort.ComparatorIrreflexive | Plugins/EyeTrackingUtilityRuntime/Source/EyeTrackingUtilityRuntime/Private/HeatmapRT.cpp:299-332 | for every real sort key and direction no row sorts before itself |
| MetricsSort.ComparatorTransitive | Plugins/EyeTrackingUtilityRuntime/Source/EyeTrackingUtilityRuntime/Private/HeatmapRT.cpp:299-332 | for every real sort key and direction the comparator is transitive |
| MetricsSort.ComparatorAsymmetric | Plugins/EyeTrackingUtilityRuntime/Source/EyeTrackingUtilityRuntime/Private/HeatmapRT.cpp:299-332 | for every real sort key and direction the comparator is asymmetric, a strict order |
| MetricsSort.NameOrderTotal | Plugins/EyeTrackingUtilityRuntime/Source/EyeTrackingUtilityRuntime/Private/HeatmapRT.cpp:304-305 | sorting by name orders any two entries whose names differ |
| MetricsSort.MaxComparatorNotAnOrder | Plugins/EyeTrackingUtilityRuntime/Source/EyeTrackingUtilityRuntime/Private/HeatmapRT.cpp:299-332 | the end-marker sort key's comparator says every row sorts before itself |
| MetricsSort.SortRows | Plugins/EyeTrackingUtilityRuntime/Source/EyeTrackingUtilityRuntime/Private/HeatmapRT.cpp:299-332 | the sorted rows are a permutation of the input, ordered by the comparator for every real sort key |
| MetricsSort.InsertRow | Plugins/EyeTrackingUtilityRuntime/Source/EyeTrackingUtilityRuntime/Private/HeatmapRT.cpp:299-332 | inserting one row adds exactly that row and keeps a sorted sequence sorted |
| MetricsSort.InsertionSlot | Plugins/EyeTrackingUtilityRuntime/Source/EyeTrackingUtilityRuntime/Private/HeatmapRT.cpp:299-332 | the slot found lies after every row that does not follow the new one and before the first that does |
| MetricsSort.InsertKeepsSorted | Plugins/EyeTrackingUtilityRuntime/Source/EyeTrackingUtilityRuntime/Private/HeatmapRT.cpp:299-332 | inserting at such a slot keeps the sequence sorted |
| MetricsSort.TabulateWellFormed | Plugins/EyeTrackingUtilityRuntime/Source/EyeTrackingUtilityRuntime/Private/HeatmapRT.cpp:162-283 | an aggregated table has one key per entry, with no name twice |
| MetricsSort.RowsOfDistinct | Plugins/EyeTrackingUtilityRuntime/Source/EyeTrackingUtilityRuntime/Private/HeatmapRT.cpp:297 | a well-formed table lists no row twice |
| MetricsSort.PermutedRowsAreEntries | Plugins/EyeTrackingUtilityRuntime/Source/EyeTrackingUtilityRuntime/Private/HeatmapRT.cpp:334-337 | every row of a permutation of the table is an entry of the table with its own value |
| MetricsSort.PermutedKeysCover | Plugins/EyeTrackingUtilityRuntime/Source/EyeTrackingUtilityRuntime/Private/HeatmapRT.cpp:334-337 | every entry of the table is named by some row of a permutation |
| MetricsSort.PermutedKeysDistinct | Plugins/EyeTrackingUtilityRuntime/Source/EyeTrackingUtilityRuntime/Private/HeatmapRT.cpp:334-337 | no name occurs twice among the rows of a permutation |
| MetricsSort.RefillFromPermutation | Plugins/EyeTrackingUtilityRuntime/Source/EyeTrackingUtilityRuntime/Private/HeatmapRT.cpp:334-337 | re-keying the table in the order of a permutation keeps it well formed, and its rows are that permutation |
| MetricsSort.Refill | Plugins/EyeTrackingUtilityRuntime/Source/EyeTrackingUtilityRuntime/Private/HeatmapRT.cpp:334-337 | refilling from rows lists the rows' keys in their order |
| MetricsSort.RefillEntries | Plugins/EyeTrackingUtilityRuntime/Source/EyeTrackingUtilityRuntime/Private/HeatmapRT.cpp:334-337 | refilling has an entry for exactly the rows' names, each with the original entry |
| MetricsSort.RefillPermutation | Plugins/EyeTrackingUtilityRuntime/Source/EyeTrackingUtilityRuntime/Private/HeatmapRT.cpp:334-337 | emptying the table and refilling it from a permutation gives the same entries in the permuted order |
| HeatmapRuntime.HeatmapRT.SortAttentionMetrics | Plugins/EyeTrackingUtilityRuntime/Source/EyeTrackingUtilityRuntime/Private/HeatmapRT.cpp:295-338 | the keys and values are unchanged, the rows are a permutation of the old ones, and for every real sort key they are ordered by it and the direction |
| MetricsNames.GetMetricsNames | Plugins/EyeTrackingUtilityRuntime/Source/EyeTrackingUtilityRuntime/Private/HeatmapRT.cpp:459-496 | without a world context the map is left as it was, otherwise it is rebuilt from the actors |
| MetricsNames.NameMapKeys | Plugins/EyeTrackingUtilityRuntime/Source/EyeTrackingUtilityRuntime/Private/HeatmapRT.cpp:483-492 | an object name is mapped iff some actor of that name needs metrics and has a metrics name that is neither empty nor "unset" |
| MetricsNames.NameMapLastWins | Plugins/EyeTrackingUtilityRuntime/Source/EyeTrackingUtilityRuntime/Private/HeatmapRT.cpp:483-492 | when several actors share an object name, the last contributing one decides its metrics name |
| MetricsNames.NameMapValuesUsable | Plugins/EyeTrackingUtilityRuntime/Source/EyeTrackingUtilityRuntime/Private/HeatmapRT.cpp:483-492 | every mapped metrics name is neither empty nor "unset" |
| MetricsNames.NameMapFolded | Plugins/EyeTrackingUtilityRuntime/Source/EyeTrackingUtilityRuntime/Private/HeatmapRT.cpp:483-492 | the name map is keyed by folded object names, so its folded form is itself |
| HeatmapRuntime.FirstNamedFrom | Plugins/EyeTrackingUtilityRuntime/Source/EyeTrackingUtilityRuntime/Private/HeatmapRT.cpp:355-371 | a found actor is one of the listed actors and carries the point's object name |
| HeatmapRuntime.FirstNamedFromFinds | Plugins/EyeTrackingUtilityRuntime/Source/EyeTrackingUtilityRuntime/Private/HeatmapRT.cpp:355-371 | with names unique among the actors, the lookup finds the actor of that name |
| HeatmapRuntime.CacheAgreesWithLookup | Plugins/EyeTrackingUtilityRuntime/Source/EyeTrackingUtilityRuntime/Private/HeatmapRT.cpp:349-371 | with unique names and a cache drawn from the actors, trying the cache first finds the same actor as a plain lookup |
| HeatmapRuntime.PaintStep | Plugins/EyeTrackingUtilityRuntime/Source/EyeTrackingUtilityRuntime/Private/HeatmapRT.cpp:88-93 | painting one more point moves the cache to its target, if any, and paints that point on the target alone |
| HeatmapRuntime.HeatmapRT.PaintHeatmapDataPoint | Plugins/EyeTrackingUtilityRuntime/Source/EyeTrackingUtilityRuntime/Private/HeatmapRT.cpp:340-372 | the point is painted on the cached actor when the names match, else on the first actor of that name, which becomes the cache; the painted actor ends exactly as `PaintedOnce` says (with a brush: the divisor scaled as `ScalePaintBrush` does, the brush moved to the UV and one stroke drawn; materials, brush instance and highlight kept); no other actor changes, and nothing changes without a world context or a match |
| HeatmapRuntime.HeatmapRT.PaintAllNow | Plugins/EyeTrackingUtilityRuntime/Source/EyeTrackingUtilityRuntime/Private/HeatmapRT.cpp:88-93 | painting the loaded points in order leaves every actor in exactly the state `PaintedAll` gives it from its old state, and leaves the cache where the lookups end |
| HeatmapRuntime.PaintedAllMeans | Plugins/EyeTrackingUtilityRuntime/Source/EyeTrackingUtilityRuntime/Private/HeatmapRT.cpp:88-93 | painting a recording on an actor draws exactly the strokes of the points resolved to it after its old ones, leaves its brush divisor and position as the last such point set them (unchanged when none reaches it or it has no brush), and changes nothing else of it |
| HeatmapRuntime.Scheduled | Plugins/EyeTrackingUtilityRuntime/Source/EyeTrackingUtilityRuntime/Private/HeatmapRT.cpp:95-108 | after scheduling, timer i is set for the point's time iff point i was recorded after the start, and is cleared otherwise; timers past the points are untouched |
| HeatmapRuntime.HeatmapRT.ScheduleAll | Plugins/EyeTrackingUtilityRuntime/Source/EyeTrackingUtilityRuntime/Private/HeatmapRT.cpp:95-108 | one handle is created per loaded point, and the timers become `Scheduled` of the old ones over the loaded points |
| HeatmapRuntime.HeatmapRT.PaintLoadedHeatmap | Plugins/EyeTrackingUtilityRuntime/Source/EyeTrackingUtilityRuntime/Private/HeatmapRT.cpp:54-112 | nothing changes without a world context, a world or loaded points; otherwise the actor list is replaced, immediate painting leaves every actor in the state `PaintedAll` gives it for the in-order lookups, deferred painting leaves the actors as they were and sets the timers as `Scheduled` says, and the cache is cleared |
| HeatmapRuntime.HeatmapRT.LoadHeatmap | Plugins/EyeTrackingUtilityRuntime/Source/EyeTrackingUtilityRuntime/Private/HeatmapRT.cpp:34-52 | a failed read leaves no points and keeps the table; a successful one loads the decoded points and recomputes the table from them with the world's name map |
| HeatmapRuntime.HeatmapRT.constructor | Plugins/EyeTrackingUtilityRuntime/Source/EyeTrackingUtilityRuntime/Private/HeatmapRT.cpp:14-20 | the static state starts empty: no points, no metrics, no actors, no cache, no timers |
| MetricsExample.ExampleSessions | Plugins/EyeTrackingUtilityRuntime/Source/EyeTrackingUtilityRuntime/Private/HeatmapRT.cpp:178-200 | the recording (0,A) (1,A) (2,B) (5,A) has the sessions [A,A], [B], [A] |
| MetricsExample.ExampleKept | Plugins/EyeTrackingUtilityRuntime/Source/EyeTrackingUtilityRuntime/Private/HeatmapRT.cpp:196-282 | with the default threshold all three sessions are counted, lasting 1, 0 and 0 |
| MetricsExample.ExampleTable | Plugins/EyeTrackingUtilityRuntime/Source/EyeTrackingUtilityRuntime/Private/HeatmapRT.cpp:223-245 | the three counted sessions give A the indices [0, 2] with total 1 and B the index [1] with total 0 |
| MetricsExample.RecordingExample | Plugins/EyeTrackingUtilityRuntime/Source/EyeTrackingUtilityRuntime/Private/HeatmapRT.cpp:162-283 | the aggregated table of that recording, entry by entry |
| JsonCodec.ReadAttentionTrackingData | Plugins/EyeTrackingUtilityRuntime/Source/EyeTrackingUtilityRuntime/Private/JsonParser.cpp:8-91 | success iff the file reads and parses to an array; then the output is the decoded records, each field looked up ignoring the case of keys, otherwise it is empty |
| JsonCodec.LookupFindsLast | Plugins/EyeTrackingUtilityRuntime/Source/EyeTrackingUtilityRuntime/Private/JsonParser.cpp:35-85 | a field lookup finds nothing iff no key equals the name ignoring case, and otherwise the value of the last member whose key does |
| JsonCodec.LookupAt | Plugins/EyeTrackingUtilityRuntime/Source/EyeTrackingUtilityRuntime/Private/JsonParser.cpp:35-85 | a member whose key answers to the name, with no later one that does, is the one found |
| JsonCodec.LookupIgnoresCase | Plugins/EyeTrackingUtilityRuntime/Source/EyeTrackingUtilityRuntime/Private/JsonParser.cpp:35-85 | every spelling of a name, up to case, finds the same value |
| JsonCodec.LookupIgnoresKeyCase | Plugins/EyeTrackingUtilityRuntime/Source/EyeTrackingUtilityRuntime/Private/JsonParser.cpp:35-85 | re-spelling the keys of an object up to case changes no lookup |
| JsonCodec.DecodeRespelledPoint | Plugins/EyeTrackingUtilityRuntime/Source/EyeTrackingUtilityRuntime/Private/JsonParser.cpp:35-87 | a record carrying a written point's fields under keys spelled in another case decodes to that point |
| JsonCodec.DecodePointAccepts | Plugins/EyeTrackingUtilityRuntime/Source/EyeTrackingUtilityRuntime/Private/JsonParser.cpp:35-87 | a record decodes iff it is an object in which all six fields are found, ignoring the case of keys, with the right kinds; the point is built from the values found, U and V as the coordinates and the divisor fields as the scale divisor |
| JsonCodec.DecodePointsAppend | Plugins/EyeTrackingUtilityRuntime/Source/EyeTrackingUtilityRuntime/Private/JsonParser.cpp:27-89 | decoding is record by record: the records of two halves decode to the two decodings concatenated, so survivors keep their order |
| JsonCodec.DecodePointsAtMostEntries | Plugins/EyeTrackingUtilityRuntime/Source/EyeTrackingUtilityRuntime/Private/JsonParser.cpp:27-89 | decoding never yields more points than records |
| JsonCodec.WriteAttentionTrackingData | Plugins/EyeTrackingUtilityRuntime/Source/EyeTrackingUtilityRuntime/Private/JsonParser.cpp:93-114 | the written tree is the array of encoded points, and success is the write's outcome |
| JsonCodec.DecodeEncodePoint | Plugins/EyeTrackingUtilityRuntime/Source/EyeTrackingUtilityRuntime/Private/JsonParser.cpp:98-110 | decoding an encoded point gives it back |
| JsonCodec.DecodeEncodePoints | Plugins/EyeTrackingUtilityRuntime/Source/EyeTrackingUtilityRuntime/Private/JsonParser.cpp:93-114 | decoding the encoded sequence gives back the original sequence |
| JsonCodec.ReadEncodedIndices | Plugins/EyeTrackingUtilityRuntime/Source/EyeTrackingUtilityRuntime/Private/JsonParser.cpp:131-136 | reading the encoded index array gives back the indices, order preserved |
| JsonCodec.WriteAttentionMetrics | Plugins/EyeTrackingUtilityRuntime/Source/EyeTrackingUtilityRuntime/Private/JsonParser.cpp:121-151 | the written tree is the array of encoded entries, and success is the write's outcome |
| JsonCodec.MetricsWrittenInTableOrder | Plugins/EyeTrackingUtilityRuntime/Source/EyeTrackingUtilityRuntime/Private/JsonParser.cpp:126-147 | the i-th written object holds the i-th key as its name, the entry's total and average and its index array, and no first-attention time or count |
| JsonCodec.ReadWrittenConfig | Plugins/EyeTrackingUtilityRuntime/Source/EyeTrackingUtilityRuntime/Private/JsonParser.cpp:158-199 | reading a written configuration gives it back, with success |
| JsonCodec.ReadConfigOutcomes | Plugins/EyeTrackingUtilityRuntime/Source/EyeTrackingUtilityRuntime/Private/JsonParser.cpp:158-188 | success iff the file reads and its text deserializes, which needs an object or an array at the root; a value other than (0,0) means both numbers were found, ignoring the case of keys; an array root yields (0,0) with success, a lone number or string yields (0,0) with failure |
| JsonCodec.ReadJsonAsWrittenReportsFailureOnSuccess | Plugins/EyeTrackingUtilityRuntime/Source/EyeTrackingUtilityRuntime/Private/JsonParser.cpp:243-264 | as written, a file that parses to an object returns the object and reports failure |
| JsonCodec.ReadJsonSucceedsIffObject | Plugins/EyeTrackingUtilityRuntime/Source/EyeTrackingUtilityRuntime/Private/JsonParser.cpp:243-264 | corrected, success is reported iff an object is returned, iff the file reads and parses to an object; the object is the same as the as-written reader returns |
| EyeTrackingCharacterModel.EyeTrackingCharacter.constructor | Plugins/EyeTrackingUtilityRuntime/Source/EyeTrackingUtilityRuntime/Private/EyeTrackingCharacter.cpp:14-23 | a new character is not tracking, has no data and no focussed actor |
| EyeTrackingCharacterModel.EyeTrackingCharacter.SetEyeTrackingState | Plugins/EyeTrackingUtilityRuntime/Source/EyeTrackingUtilityRuntime/Private/EyeTrackingCharacter.cpp:207-214 | the toggle flips tracking, always resets the start time, and clears the data only when tracking turns on |
| EyeTrackingCharacterModel.EyeTrackingCharacter.PaintHeatmap | Plugins/EyeTrackingUtilityRuntime/Source/EyeTrackingUtilityRuntime/Private/EyeTrackingCharacter.cpp:97-162 | a sample is appended, earlier ones untouched, iff tracking with a camera and the trace hits a heatmap actor with a UV; its time is the elapsed time clamped to [0, 1024]; the hit actor is painted only then, with its brush scaled and moved to the UV; with a camera while tracking the previous focus loses its highlight; nothing else of either actor changes |
| EyeTrackingCharacterModel.EyeTrackingCharacter.FocusActor | Plugins/EyeTrackingUtilityRuntime/Source/EyeTrackingUtilityRuntime/Private/EyeTrackingCharacter.cpp:221-254 | nothing changes while tracking or without a camera; a miss un-highlights the focused actor; a hit on a heatmap actor makes it the focus, highlights it when it needs metrics and otherwise leaves its highlight as it was unless it was the focus, and un-highlights the previous one; only highlights change |
| EyeTrackingCharacterModel.Clamp | Plugins/EyeTrackingUtilityRuntime/Source/EyeTrackingUtilityRuntime/Private/EyeTrackingCharacter.cpp:136-155 | the clamped value lies in the bounds, is the input when inside, and the nearer bound otherwise |
| EyeTrackingCharacterModel.CalculateScaleDivisor | Plugins/EyeTrackingUtilityRuntime/Source/EyeTrackingUtilityRuntime/Private/EyeTrackingCharacter.cpp:167-205 | (1,1) without a mesh; the scaled (Y,Z) when the forward axis dominates, ties going to forward; the scaled (X,Y) otherwise |
| EyeTrackingCharacterModel.SideFacesScaleAlike | Plugins/EyeTrackingUtilityRuntime/Source/EyeTrackingUtilityRuntime/Private/EyeTrackingCharacter.cpp:181-199 | every hit not facing forward, whether on a right or an up face, yields the same divisor |
| AdditionalUtility.PaddedRoundTrip | Plugins/EyeTrackingUtilityRuntime/Source/EyeTrackingUtilityRuntime/Private/AdditionalUtility.cpp:5-11 | for any width the buffer holds, parsing the formatted integer gives the integer back |
| AdditionalUtility.RoundTripZeroPadded | Plugins/EyeTrackingUtilityRuntime/Source/EyeTrackingUtilityRuntime/Private/AdditionalUtility.cpp:9 | a zero-padded result parses back to the integer |
| AdditionalUtility.RoundTripSpacePadded | Plugins/EyeTrackingUtilityRuntime/Source/EyeTrackingUtilityRuntime/Private/AdditionalUtility.cpp:9 | a negative width left-aligns and pads with spaces, and the result still parses back to the integer |
| AdditionalUtility.ZeroPaddedForm | Plugins/EyeTrackingUtilityRuntime/Source/EyeTrackingUtilityRuntime/Private/AdditionalUtility.cpp:9 | when the digits are shorter than the width, the result is the sign, then zeros, then the digits |
| AdditionalUtility.PaddedLength | Plugins/EyeTrackingUtilityRuntime/Source/EyeTrackingUtilityRuntime/Private/AdditionalUtility.cpp:5-11 | the result's length is the larger of the width and the plain form's length, capped at the 99 characters the buffer holds |
| AdditionalUtility.WideWidthIsCut | Plugins/EyeTrackingUtilityRuntime/Source/EyeTrackingUtilityRuntime/Private/AdditionalUtility.cpp:7-10 | a width of 120 yields only 99 characters |
| AdditionalUtility.ParseDigits | Plugins/EyeTrackingUtilityRuntime/Source/EyeTrackingUtilityRuntime/Private/AdditionalUtility.cpp:9 | the decimal digits of a number read back as that number |
| AdditionalUtility.ParseLeadingZeros | Plugins/EyeTrackingUtilityRuntime/Source/EyeTrackingUtilityRuntime/Private/AdditionalUtility.cpp:9 | leading zeros do not change the value read |
| AdditionalUtility.GetAxesByLength | Plugins/EyeTrackingUtilityRuntime/Source/EyeTrackingUtilityRuntime/Private/AdditionalUtility.cpp:13-18 | the output is exactly three values, a permutation of (X, Y, Z), in non-increasing order |
| AdditionalUtility.LongestAxisIsLargest | Plugins/EyeTrackingUtilityRuntime/Source/EyeTrackingUtilityRuntime/Private/AdditionalUtility.cpp:13-18 | the first axis of that ordering is the largest component |
| HeatmapReadyActors.MergePrefixSlots | Plugins/EyeTrackingUtilityRuntime/Source/EyeTrackingUtilityRuntime/Private/HeatmapReadyActor.cpp:55-70 | merging overwrites stored slot i with a usable current material, appends usable materials beyond the stored count at the end in order, and skips null and non-asset materials |
| HeatmapReadyActors.SetSlot | Plugins/EyeTrackingUtilityRuntime/Source/EyeTrackingUtilityRuntime/Private/HeatmapReadyActor.cpp:79 | setting a mesh slot puts the material there and leaves every other slot as it was, new slots being empty |
| HeatmapReadyActors.InstancesCount | Plugins/EyeTrackingUtilityRuntime/Source/EyeTrackingUtilityRuntime/Private/HeatmapReadyActor.cpp:72-83 | one canvas instance per non-null slot among the originally stored ones, and only instances of those slots |
| HeatmapReadyActors.HeatmapReadyActor.constructor | Plugins/EyeTrackingUtilityRuntime/Source/EyeTrackingUtilityRuntime/Private/HeatmapReadyActor.cpp:14-20 | a new actor holds its configured name, metrics settings, override and mesh, with no stored materials, instances, brush or strokes |
| HeatmapReadyActors.HeatmapReadyActor.SetupMaterials | Plugins/EyeTrackingUtilityRuntime/Source/EyeTrackingUtilityRuntime/Private/HeatmapReadyActor.cpp:40-84 | nothing changes without a mesh; otherwise the stored materials are merged, the instances restart from empty and cover only the originally stored slots, the brush is instanced from the asset with its parameters at their defaults, and the new blank render target holds no strokes |
| HeatmapReadyActors.HeatmapReadyActor.ScalePaintBrush | Plugins/EyeTrackingUtilityRuntime/Source/EyeTrackingUtilityRuntime/Private/HeatmapReadyActor.cpp:91-101 | nothing changes without a brush; otherwise the divisor is the override when enabled with both components non-zero, else the given one |
| HeatmapReadyActors.HeatmapReadyActor.PaintHeatmap | Plugins/EyeTrackingUtilityRuntime/Source/EyeTrackingUtilityRuntime/Private/HeatmapReadyActor.cpp:103-118 | nothing changes without a brush; otherwise one stroke at the UV with the current divisor is drawn |
| HeatmapReadyActors.HeatmapReadyActor.SetFocussed | Plugins/EyeTrackingUtilityRuntime/Source/EyeTrackingUtilityRuntime/Private/HeatmapReadyActor.cpp:130-137 | the highlight follows the flag when there is a mesh and is untouched otherwise |
| EditorModule.WaypointsOf | Plugins/EyeTrackingUtilityEditor/Source/EyeTrackingUtilityEditor/Private/EyeTrackingUtilityEditor.cpp:62-72 | exactly the waypoints among the level's actors are collected |
| EditorModule.CollectWaypoints | Plugins/EyeTrackingUtilityEditor/Source/EyeTrackingUtilityEditor/Private/EyeTrackingUtilityEditor.cpp:62-72 | the collecting loop yields the level's waypoints in level order |
| EditorModule.InsertByIndex | Plugins/EyeTrackingUtilityEditor/Source/EyeTrackingUtilityEditor/Private/EyeTrackingUtilityEditor.cpp:74-77 | inserting a waypoint adds exactly it and keeps the order by index |
| EditorModule.InsertKeepsOrder | Plugins/EyeTrackingUtilityEditor/Source/EyeTrackingUtilityEditor/Private/EyeTrackingUtilityEditor.cpp:74-77 | inserting at a slot between smaller and larger indices keeps the sequence ordered |
| EditorModule.SortByIndex | Plugins/EyeTrackingUtilityEditor/Source/EyeTrackingUtilityEditor/Private/EyeTrackingUtilityEditor.cpp:74-77 | the sorted waypoints are a permutation of the collected ones, in ascending index order |
| EditorModule.NumberInOrder | Plugins/EyeTrackingUtilityEditor/Source/EyeTrackingUtilityEditor/Private/EyeTrackingUtilityEditor.cpp:79-84 | the waypoint at sorted position k gets index k |
| EditorModule.RenumberWaypoints | Plugins/EyeTrackingUtilityEditor/Source/EyeTrackingUtilityEditor/Private/EyeTrackingUtilityEditor.cpp:62-85 | the level's waypoints, sorted by their old indices (a permutation of them), are numbered by position, and the dropped waypoint gets their count; when the level lists the dropped waypoint, the indices in use are exactly 0 to the count except its sorted position |
| EditorModule.DistinctPermutation | Plugins/EyeTrackingUtilityEditor/Source/EyeTrackingUtilityEditor/Private/EyeTrackingUtilityEditor.cpp:74-77 | sorting distinct waypoints yields distinct waypoints |
| EditorModule.StopAt | Plugins/EyeTrackingUtilityEditor/Source/EyeTrackingUtilityEditor/Private/EyeTrackingUtilityEditor.cpp:57-60 | the handler stops at the first waypoint met without an actor subsystem, and at no earlier actor |
| EditorModule.OnNewActorsDropped | Plugins/EyeTrackingUtilityEditor/Source/EyeTrackingUtilityEditor/Private/EyeTrackingUtilityEditor.cpp:44-89 | the broadcasts are those of the actors handled before the handler stops, in order; without an actor subsystem no waypoint index changes |
| EditorModule.EmittedComesFromHandled | Plugins/EyeTrackingUtilityEditor/Source/EyeTrackingUtilityEditor/Private/EyeTrackingUtilityEditor.cpp:47-57 | every broadcast names a handled static mesh or waypoint |
| EditorModule.Others | Plugins/EyeTrackingUtilityEditor/Source/EyeTrackingUtilityEditor/Private/EyeTrackingUtilityEditor.cpp:47-57 | the count of handled actors that are neither a static mesh nor a waypoint is 0 iff every actor is one of those, and all of them iff none is |
| EditorModule.EmittedCount | Plugins/EyeTrackingUtilityEditor/Source/EyeTrackingUtilityEditor/Private/EyeTrackingUtilityEditor.cpp:47-57 | one broadcast per handled actor except those of other kinds, which are ignored |
| EditorModule.WithSubsystemAllHandled | Plugins/EyeTrackingUtilityEditor/Source/EyeTrackingUtilityEditor/Private/EyeTrackingUtilityEditor.cpp:44-89 | with an actor subsystem every dropped actor is handled |
| EditorModule.EmittedWithoutWaypoints | Plugins/EyeTrackingUtilityEditor/Source/EyeTrackingUtilityEditor/Private/EyeTrackingUtilityEditor.cpp:47-57 | with no waypoints handled, only static-mesh broadcasts are made |
| EditorModule.NoSubsystemNoWaypointBroadcast | Plugins/EyeTrackingUtilityEditor/Source/EyeTrackingUtilityEditor/Private/EyeTrackingUtilityEditor.cpp:57-60 | without an actor subsystem no waypoint is handled or broadcast |
| EditorModule.ResetMaterialParameters | Plugins/EyeTrackingUtilityEditor/Source/EyeTrackingUtilityEditor/Private/EyeTrackingUtilityEditor.cpp:135-140 | the written configuration reads back as ShowHeatmap 0, ShowTextures 1 |
| EditorModule.Waypoint.constructor | Plugins/EyeTrackingUtilityRuntime/Source/EyeTrackingUtilityRuntime/Public/Waypoint.h:20-22 | a new waypoint holds the given index |

## Left out

- Sorting by the end-marker key: `SortAttentionMetrics` promises only the permutation for it. Its comparator always answers true (`MetricsSort.MaxComparatorNotAnOrder`), so no order can be promised. The engine's sort with such a comparator is not defined, and the model stands in an arbitrary insertion result.
- The engine sort in `SortAttentionMetrics` and `OnNewActorsDropped` is modelled as an insertion sort. Only its result is specified, and ties stay unspecified as in the engine.
- Timers firing: the deferred branch of `PaintLoadedHeatmap` is modelled up to setting the timers (`HeatmapRT.ScheduleAll`): a point with a positive time gets a timer, and a point at time 0 or before clears its handle's timer. The paint that runs later, `StopTimer`, `BlendMaterialParameter` and `ClearAllTimers` depend on the engine's timer manager.
- JSON text and file I/O: the text parser and serializer, `ReadStringFromFile`, `WriteStringToFile`, `WriteJson` and the folder-path helpers are a foreign library. The codec works on an abstract JSON tree, and a file read is an input.
- The engine JSON library's silent coercions are not modelled: numbers and strings read as each other, and booleans read as numbers. `JValue` has no booleans and no null, so a file holding them is modelled only through `parsed == None` or not at all. A field must have the right kind to be read.
- Float rounding and narrowing: times, UVs and scales are `real`, and the `float` narrowing in the decoder and the rounding of averages are not modelled.
- Engine geometry: line traces, screen deprojection, `GazeScreenToWorld` and the UV lookup of a hit are inputs (`Trace`). Render targets and material parameters are reduced to a list of strokes per actor.
- `OnNewActorsDropped`: the model states the broadcasts and, per dropped waypoint, the renumbering (`EditorModule.RenumberWaypoints`). The indices left after several waypoints dropped in one call are not restated as one closed formula.
- The wrap-around of `int32` waypoint indices is not modelled. Indices are unbounded integers.
- `EyeTrackingEditorWidget.cpp`, `TakeRecorderControls.cpp`, `RestoreMaterialsForHeatmapReadyActors`, `LoadLastHeatmapAndResetList` and module startup and shutdown are engine object-graph and editor glue with no data logic of their own.
- `SaveHeatmap`, `ResetHeatmap`, the last-file-name getter and setter, `GetAttentionTrackingDataCurrentlyLoaded`, `GetAttentionMetrics` and `LogAttentionMetrics` are one-line forwards, accessors or logging.
- `DebugHeader` notifications and dialogs are side effects only.
- `HeatmapReadyActor.SetupMaterials` models the engine's dynamic material instance as an opaque value built from its parent.
- SetupMaterials: the new brush instance takes its scale divisor and position from the brush material asset, which is not part of this model; the model gives it the fixed defaults `DefaultScaleDivisor` and `DefaultPosition`.
- The JSON tree keeps an object's members in text order. Lookups follow the engine's case-insensitive field map, with a later member replacing an earlier one whose key compares equal; the order in which the engine's serializer writes a map's fields is not modelled.

## Findings

| source | as written | input that shows it | evidently intended | confidence | as-written member | corrected member |
|---|---|---|---|---|---|---|
| Plugins/EyeTrackingUtilityRuntime/Source/EyeTrackingUtilityRuntime/Private/JsonParser.cpp:262 | after deserializing the file into an object, `ReadJson` sets the success flag to false | a file whose text is `{}`: the object is returned, and failure is reported | report success whenever an object is returned | not executed | JsonCodec.ReadJsonAsWritten | JsonCodec.ReadJson |
