# Speedometer and word count demo: a Dafny model

This project models the core of a demonstration of Hazelcast IMDG, Hazelcast
Jet and Kafka. A Kafka writer replays two GPS tracks ("fuad" and "neil") into
a three-partition topic, point by point in name order. A Hazelcast cluster
keeps a "command" map: a command-line client writes a noun ("kafka",
"speedo", "wordcount") with a parameter array starting with a verb ("start",
"stop"), and a listener on each server starts or forgets Jet jobs. The
speedometer job aggregates the positions of each walker over five-minute
windows that slide every minute, turns each window into a speed and writes
the moving ones to the "speed" map. At start-up each server creates the
demo's maps and, on the first server, loads 35 lines of Hamlet into the
"hamlet" map; the word-count job splits those lines at runs of non-word
characters, lowers them and counts each word into the "words" map.

The modules follow the Java classes:

- `Constants`, `Track` and `TestData`: the shared names and numbers, the
  track point and speed records, and the Hamlet lines.
- `JavaLang`: the Java library behaviour the core relies on. This covers
  truncating `/` and `%`, `int` wrap-around and `String.hashCode`.
  It also covers `startsWith`, `equalsIgnoreCase` and `compareTo`.
- `GpxWriter`: loading the tracks into a `TreeMap` (a sorted association
  list), the interleaved send schedule and partition choice, and how the
  callbacks decide the outcome.
- `ApplicationCommands`: the client's commands as updates of the "command"
  map, and the listing of distributed objects.
- `CommandListener`: the server's listener, as a specification on a value
  (`Handle`) and as a class `Listener` whose fields are the two job handles.
- `CommandProtocol`: each client command followed through the map into the
  listener.
- `SpeedoAggregation`: the aggregator's accumulate, combine and finish. They
  appear as functions on a value `Acc` and as the mutable class `Aggregator`
  proved to agree with them.
- `Speedo`: the speedometer pipeline from journal event to "speed" map.
- `ApplicationInitializer`: start-up map creation and Hamlet loading.
- `WordCount`: `\W+` splitting with Java's `Pattern.split` rules, lowering,
  counting and the map sink.

Some behaviour of the code as written is easy to miss, and the model keeps it:

- `combine` keeps the EARLIER of the two last points (`CombineVersusSequentialFold`,
  `CombineCanLoseTheLatestPoint`).
- A stop command is matched case-sensitively while start is not (`UpperCaseStopIsUnknown`).
- The "wordcount" noun is not handled by the listener (`WordcountIsNeverStarted`).
- A line starting with a separator yields an empty first token, which is
  then counted as a word (`LeadingSeparatorGivesEmptyToken`).

## Model

| member | source | states |
|---|---|---|
| JavaLang.Quot | hazelcast/hazelcast-server/src/main/java/neil/demo/devoxxma2017/jet/SpeedoAggregation.java:186 | Java integer division: the remainder left over has the dividend's sign and is smaller than the divisor |
| JavaLang.Rem | kafka-writer/src/main/java/neil/demo/devoxxma2017/GpxWriter.java:90 | Java `%`: dividend = quotient * divisor + remainder, the remainder smaller than the divisor and with the dividend's sign (negative for a negative hash) |
| JavaLang.Wrap32 | kafka-writer/src/main/java/neil/demo/devoxxma2017/GpxWriter.java:90 | int arithmetic: the result is in the int range, congruent to the exact value modulo 2^32, and equal to it when it fits |
| JavaLang.HashCode | kafka-writer/src/main/java/neil/demo/devoxxma2017/GpxWriter.java:90 | String.hashCode is always a Java int |
| JavaLang.LessIrreflexive | kafka-writer/src/main/java/neil/demo/devoxxma2017/GpxWriter.java:147 | the TreeMap's key order (String.compareTo) is irreflexive |
| JavaLang.LessTransitive | kafka-writer/src/main/java/neil/demo/devoxxma2017/GpxWriter.java:147 | the TreeMap's key order is transitive |
| JavaLang.LessTotal | kafka-writer/src/main/java/neil/demo/devoxxma2017/GpxWriter.java:147 | any two distinct keys are ordered one way or the other |
| JavaLang.LessAsymmetric | kafka-writer/src/main/java/neil/demo/devoxxma2017/GpxWriter.java:147 | two keys are never each below the other |
| GpxWriter.PutSorted | kafka-writer/src/main/java/neil/demo/devoxxma2017/GpxWriter.java:163 | TreeMap.put keeps the keys strictly ascending |
| GpxWriter.PutThenGet | kafka-writer/src/main/java/neil/demo/devoxxma2017/GpxWriter.java:163 | after put, get of that key returns the new list and every other key is unchanged |
| GpxWriter.Get | kafka-writer/src/main/java/neil/demo/devoxxma2017/GpxWriter.java:86 | TreeMap.get; `PutThenGet` and `LoadedGet` state what it returns |
| GpxWriter.Put | kafka-writer/src/main/java/neil/demo/devoxxma2017/GpxWriter.java:163 | TreeMap.put; `PutSorted` and `PutThenGet` state that it keeps the order and replaces exactly one key |
| GpxWriter.Loaded | kafka-writer/src/main/java/neil/demo/devoxxma2017/GpxWriter.java:145-174 | the loaded map is sorted by file name |
| GpxWriter.LoadTestData | kafka-writer/src/main/java/neil/demo/devoxxma2017/GpxWriter.java:145-174 | the loop over the file names builds exactly the loaded map, a failed file being skipped |
| GpxWriter.LoadedGet | kafka-writer/src/main/java/neil/demo/devoxxma2017/GpxWriter.java:149-171 | a name maps to its file's points exactly when it is one of the file names and its file could be read |
| GpxWriter.DemoFilesInNameOrder | kafka-writer/src/main/java/neil/demo/devoxxma2017/GpxWriter.java:147-163 | with both files readable the map iterates "fuad" then "neil" |
| GpxWriter.Partition | kafka-writer/src/main/java/neil/demo/devoxxma2017/GpxWriter.java:90 | the partition is between -2 and 2 and is negative only for a negative hash |
| GpxWriter.DemoPartitions | kafka-writer/src/main/java/neil/demo/devoxxma2017/GpxWriter.java:90 | "fuad" goes to partition 2 and "neil" to partition 1 |
| GpxWriter.Round | kafka-writer/src/main/java/neil/demo/devoxxma2017/GpxWriter.java:85-117 | round i sends one point for every file longer than i |
| GpxWriter.RoundKeysAscend | kafka-writer/src/main/java/neil/demo/devoxxma2017/GpxWriter.java:85-93 | within a round the keys are sent in strictly ascending order, the TreeMap's iteration order |
| GpxWriter.RoundsLength | kafka-writer/src/main/java/neil/demo/devoxxma2017/GpxWriter.java:80-119 | the first n rounds send the points of each file clipped to n |
| GpxWriter.ScheduleLength | kafka-writer/src/main/java/neil/demo/devoxxma2017/GpxWriter.java:68-119 | all rounds together send exactly `total` points, the sum of the list sizes |
| GpxWriter.Rounds | kafka-writer/src/main/java/neil/demo/devoxxma2017/GpxWriter.java:80-119 | the sends of the first n passes of the outer loop; `RoundsLength`, `RoundsPoints` and `RoundsPrefix` state its properties |
| GpxWriter.MaxLen | kafka-writer/src/main/java/neil/demo/devoxxma2017/GpxWriter.java:68-73 | the largest list size; `MaxLenBound` and `Sizes` state it |
| GpxWriter.TotalLen | kafka-writer/src/main/java/neil/demo/devoxxma2017/GpxWriter.java:69-74 | the sum of the list sizes; `Sizes` and `ScheduleLength` state it |
| GpxWriter.Schedule | kafka-writer/src/main/java/neil/demo/devoxxma2017/GpxWriter.java:80-119 | every send of the outer loop; `PerKeyOrder`, `KeyFixesPartition` and `ScheduleLength` state its properties |
| GpxWriter.PointsForConcat | kafka-writer/src/main/java/neil/demo/devoxxma2017/GpxWriter.java:85-93 | the points sent for a key over two runs of sends are those of the first run, then those of the second |
| GpxWriter.RoundPoints | kafka-writer/src/main/java/neil/demo/devoxxma2017/GpxWriter.java:85-93 | round i sends for a key its i-th point, or nothing if its list is shorter |
| GpxWriter.RoundsPoints | kafka-writer/src/main/java/neil/demo/devoxxma2017/GpxWriter.java:80-93 | the first n rounds send for a key its first n points, in order |
| GpxWriter.MaxLenBound | kafka-writer/src/main/java/neil/demo/devoxxma2017/GpxWriter.java:68-75 | no file has more points than `max` |
| GpxWriter.PerKeyOrder | kafka-writer/src/main/java/neil/demo/devoxxma2017/GpxWriter.java:80-119 | the whole schedule sends each key's points exactly once and in track order, and nothing for an unknown key |
| GpxWriter.RoundPartitions | kafka-writer/src/main/java/neil/demo/devoxxma2017/GpxWriter.java:90-93 | every send in a round goes to its key's partition |
| GpxWriter.KeyFixesPartition | kafka-writer/src/main/java/neil/demo/devoxxma2017/GpxWriter.java:80-93 | every send of the schedule goes to its key's partition, so one key always uses one partition |
| GpxWriter.CallbacksAccount | kafka-writer/src/main/java/neil/demo/devoxxma2017/GpxWriter.java:95-113 | each send ends in exactly one callback: failures plus the three partitions' successes equal the number of sends |
| GpxWriter.Tally | kafka-writer/src/main/java/neil/demo/devoxxma2017/GpxWriter.java:124-131 | the run reports exactly when no callback failed, and then reports for each partition p the successes on p and the total; otherwise it fails with the failure count |
| GpxWriter.RoundsPrefix | kafka-writer/src/main/java/neil/demo/devoxxma2017/GpxWriter.java:80-119 | fewer rounds send a prefix of what more rounds send |
| GpxWriter.SchedulePrefixHoldsFirstPoints | kafka-writer/src/main/java/neil/demo/devoxxma2017/GpxWriter.java:80-119 | the first n rounds are a prefix of the schedule holding exactly the first n points of every key, so point i of every key goes before point i + 1 of any key |
| GpxWriter.NextInSchedule | kafka-writer/src/main/java/neil/demo/devoxxma2017/GpxWriter.java:80-119 | sends cut short inside a round are a proper prefix of the schedule, followed in it by the next send |
| GpxWriter.Sizes | kafka-writer/src/main/java/neil/demo/devoxxma2017/GpxWriter.java:68-75 | the loop finds the largest list size and the sum of the sizes |
| GpxWriter.SendRound | kafka-writer/src/main/java/neil/demo/devoxxma2017/GpxWriter.java:85-117 | one round of the inner loop sends the round's points in key order, or stops at the first send whose partition is negative |
| GpxWriter.Run | kafka-writer/src/main/java/neil/demo/devoxxma2017/GpxWriter.java:58-132 | every accepted send has a partition in 0..2; a run sends the whole schedule and ends in the callback tally, or stops at the first key with a negative partition; a report's partition counts add up to the total |
| ApplicationCommands.ParseCommandNameInverts | hazelcast/hazelcast-client/src/main/java/neil/demo/devoxxma2017/ApplicationCommands.java:39-49 | a command name splits back into its noun and verb |
| ApplicationCommands.CommandNameInjective | hazelcast/hazelcast-client/src/main/java/neil/demo/devoxxma2017/ApplicationCommands.java:39-49 | noun-dash-verb naming gives distinct noun and verb pairs distinct command names, for nouns without a dash |
| ApplicationCommands.CommandNames | hazelcast/hazelcast-client/src/main/java/neil/demo/devoxxma2017/ApplicationCommands.java:39-49 | the five command names are kafka-start, kafka-stop, speedo-start, speedo-stop and wordcount-start |
| ApplicationCommands.CommandName | hazelcast/hazelcast-client/src/main/java/neil/demo/devoxxma2017/ApplicationCommands.java:39-49 | a command name is the noun, a dash and the verb; its meaning is carried by `CommandNameInjective` and `CommandNames` |
| ApplicationCommands.StartKafka | hazelcast/hazelcast-client/src/main/java/neil/demo/devoxxma2017/ApplicationCommands.java:64-89 | kafka-start writes ["start", servers] under "kafka" and leaves every other noun alone; servers is the option when non-empty, the configured bootstrap servers otherwise |
| ApplicationCommands.Request | hazelcast/hazelcast-client/src/main/java/neil/demo/devoxxma2017/ApplicationCommands.java:96-166 | stop and the other starts write the one-element [verb] under their noun and leave every other noun alone |
| ApplicationCommands.StopKafka | hazelcast/hazelcast-client/src/main/java/neil/demo/devoxxma2017/ApplicationCommands.java:96-108 | kafka-stop writes ["stop"] under "kafka" and leaves every other noun alone |
| ApplicationCommands.StartSpeedo | hazelcast/hazelcast-client/src/main/java/neil/demo/devoxxma2017/ApplicationCommands.java:115-127 | speedo-start writes ["start"] under "speedo" and leaves every other noun alone |
| ApplicationCommands.StopSpeedo | hazelcast/hazelcast-client/src/main/java/neil/demo/devoxxma2017/ApplicationCommands.java:134-146 | speedo-stop writes ["stop"] under "speedo" and leaves every other noun alone |
| ApplicationCommands.Wordcount | hazelcast/hazelcast-client/src/main/java/neil/demo/devoxxma2017/ApplicationCommands.java:154-166 | wordcount-start writes ["start"] under "wordcount" and leaves every other noun alone |
| ApplicationCommands.LastRequestWins | hazelcast/hazelcast-client/src/main/java/neil/demo/devoxxma2017/ApplicationCommands.java:86-145 | a later command for a noun replaces the earlier one |
| ApplicationCommands.Visible | hazelcast/hazelcast-client/src/main/java/neil/demo/devoxxma2017/ApplicationCommands.java:189-191 | filtering never adds objects and keeps no internal one |
| ApplicationCommands.VisibleMembers | hazelcast/hazelcast-client/src/main/java/neil/demo/devoxxma2017/ApplicationCommands.java:190 | an object is listed exactly when its name does not start with "__" |
| ApplicationCommands.Plural | hazelcast/hazelcast-client/src/main/java/neil/demo/devoxxma2017/ApplicationCommands.java:212 | the count line's suffix is empty exactly for one object |
| ApplicationCommands.EntryLinesShape | hazelcast/hazelcast-client/src/main/java/neil/demo/devoxxma2017/ApplicationCommands.java:198-204 | a map contributes one line per entry, line i for entry i |
| ApplicationCommands.EntryLines | hazelcast/hazelcast-client/src/main/java/neil/demo/devoxxma2017/ApplicationCommands.java:198-204 | the entry lines of a map, in iteration order; `EntryLinesShape` states one line per entry at the same index |
| ApplicationCommands.ObjectLines | hazelcast/hazelcast-client/src/main/java/neil/demo/devoxxma2017/ApplicationCommands.java:192-208 | a map's header line and entry lines, or any other object's class line; `RenderObject` is proved against it |
| ApplicationCommands.Body | hazelcast/hazelcast-client/src/main/java/neil/demo/devoxxma2017/ApplicationCommands.java:189-210 | the lines of every visible object in order; `Data`, `ExtendByOne` and `InternalObjectsAreInvisible` state its properties |
| ApplicationCommands.RenderObject | hazelcast/hazelcast-client/src/main/java/neil/demo/devoxxma2017/ApplicationCommands.java:192-208 | one object renders as its map header and entry lines, or its class line |
| ApplicationCommands.Data | hazelcast/hazelcast-client/src/main/java/neil/demo/devoxxma2017/ApplicationCommands.java:178-216 | the listing is a rule, the lines of every visible object in order, the count line and a rule; the count is the number of visible objects |
| ApplicationCommands.InternalObjectsAreInvisible | hazelcast/hazelcast-client/src/main/java/neil/demo/devoxxma2017/ApplicationCommands.java:190 | adding an internal object anywhere changes neither the listing nor the count |
| CommandListener.NounsExclusive | hazelcast/hazelcast-server/src/main/java/neil/demo/devoxxma2017/CommandListener.java:98-116 | no noun is both "kafka" and "speedo" ignoring case |
| CommandListener.Handle | hazelcast/hazelcast-server/src/main/java/neil/demo/devoxxma2017/CommandListener.java:48-87 | only a start changes the jobs submitted, by exactly the started job; an exception, an unknown noun or verb and an ignored start or stop leave the state unchanged |
| CommandListener.HandleStart | hazelcast/hazelcast-server/src/main/java/neil/demo/devoxxma2017/CommandListener.java:97-119 | a start submits one job only into an empty kafka or speedo handle, records it there and changes nothing otherwise; it is ignored exactly when that handle is set |
| CommandListener.HandleStop | hazelcast/hazelcast-server/src/main/java/neil/demo/devoxxma2017/CommandListener.java:128-148 | a stop never withdraws a submitted job, leaves the noun's handle empty, and reports a stop exactly when the handle was set |
| CommandListener.IsStart | hazelcast/hazelcast-server/src/main/java/neil/demo/devoxxma2017/CommandListener.java:78-79 | the start verb is matched ignoring case; `StartVerbAndNounIgnoreCase` exhibits it |
| CommandListener.IsStop | hazelcast/hazelcast-server/src/main/java/neil/demo/devoxxma2017/CommandListener.java:81-82 | the stop verb is matched exactly; `UpperCaseStopIsUnknown` exhibits it |
| CommandListener.Listener.constructor | hazelcast/hazelcast-server/src/main/java/neil/demo/devoxxma2017/CommandListener.java:44-45 | a new listener holds no job handle |
| CommandListener.Listener.EntryEvent | hazelcast/hazelcast-server/src/main/java/neil/demo/devoxxma2017/CommandListener.java:48-87 | an entry event moves the fields to the state and outcome of `Handle` |
| CommandListener.Listener.HandleStartCommand | hazelcast/hazelcast-server/src/main/java/neil/demo/devoxxma2017/CommandListener.java:97-119 | the start handler updates the fields as `HandleStart` says |
| CommandListener.Listener.HandleStopCommand | hazelcast/hazelcast-server/src/main/java/neil/demo/devoxxma2017/CommandListener.java:128-148 | the stop handler updates the fields as `HandleStop` says |
| CommandListener.StartWhenStopped | hazelcast/hazelcast-server/src/main/java/neil/demo/devoxxma2017/CommandListener.java:97-114 | a start with no handle starts the job (Kafka with the servers in params[1]) and records it, or fails without change when no job or server is available |
| CommandListener.StartWhenRunningIsIgnored | hazelcast/hazelcast-server/src/main/java/neil/demo/devoxxma2017/CommandListener.java:98-114 | a start while the handle is set changes nothing |
| CommandListener.StartIsIdempotent | hazelcast/hazelcast-server/src/main/java/neil/demo/devoxxma2017/CommandListener.java:97-119 | a second start after a successful one changes nothing |
| CommandListener.StopForgetsWithoutCancelling | hazelcast/hazelcast-server/src/main/java/neil/demo/devoxxma2017/CommandListener.java:128-148 | a stop forgets the handle and cancels no job, and a second stop changes nothing |
| CommandListener.UpperCaseStopIsUnknown | hazelcast/hazelcast-server/src/main/java/neil/demo/devoxxma2017/CommandListener.java:81-84 | "STOP" is an unknown verb, as stop is matched exactly |
| CommandListener.StartVerbAndNounIgnoreCase | hazelcast/hazelcast-server/src/main/java/neil/demo/devoxxma2017/CommandListener.java:78-79 | "SPEEDO" with "START" starts the speedometer |
| CommandListener.UnknownNounChangesNothing | hazelcast/hazelcast-server/src/main/java/neil/demo/devoxxma2017/CommandListener.java:116-145 | an unknown noun leaves the state alone, whatever the verb |
| CommandListener.WordcountIsUnknown | hazelcast/hazelcast-server/src/main/java/neil/demo/devoxxma2017/CommandListener.java:97-116 | "wordcount" is neither known noun |
| CommandListener.NounsAreIsolated | hazelcast/hazelcast-server/src/main/java/neil/demo/devoxxma2017/CommandListener.java:97-148 | a command for one noun never touches the other noun's handle |
| CommandListener.KafkaJobsAppend | hazelcast/hazelcast-server/src/main/java/neil/demo/devoxxma2017/CommandListener.java:98-105 | counting Kafka jobs over an appended job adds one exactly for a Kafka reader |
| CommandListener.NoKafkaStopStep | hazelcast/hazelcast-server/src/main/java/neil/demo/devoxxma2017/CommandListener.java:98-135 | a command that is not a Kafka stop adds at most one Kafka job, and only into an empty handle |
| CommandListener.RepeatedStartsSubmitOneJob | hazelcast/hazelcast-server/src/main/java/neil/demo/devoxxma2017/CommandListener.java:97-135 | without a Kafka stop, any series of commands submits at most one Kafka reader, none while one is held |
| CommandProtocol.ClientWordsAreRecognised | hazelcast/hazelcast-server/src/main/java/neil/demo/devoxxma2017/CommandListener.java:76-116 | the client's nouns and verbs are the listener's, wordcount aside |
| CommandProtocol.KafkaStartStartsTheReader | hazelcast/hazelcast-server/src/main/java/neil/demo/devoxxma2017/CommandListener.java:98-105 | kafka-start reaches the listener as a start of the Kafka reader on the client's chosen servers |
| CommandProtocol.KafkaStopForgetsTheReader | hazelcast/hazelcast-server/src/main/java/neil/demo/devoxxma2017/CommandListener.java:129-135 | kafka-stop reaches the listener as a stop that forgets the Kafka handle |
| CommandProtocol.SpeedoStartStartsTheSpeedometer | hazelcast/hazelcast-server/src/main/java/neil/demo/devoxxma2017/CommandListener.java:107-114 | speedo-start reaches the listener as a start of the speedometer |
| CommandProtocol.SpeedoStopForgetsTheSpeedometer | hazelcast/hazelcast-server/src/main/java/neil/demo/devoxxma2017/CommandListener.java:137-143 | speedo-stop reaches the listener as a stop that forgets the speedometer handle |
| CommandProtocol.WordcountIsNeverStarted | hazelcast/hazelcast-server/src/main/java/neil/demo/devoxxma2017/CommandListener.java:116 | wordcount-start is reported as an unknown noun and changes nothing |
| CommandProtocol.DoubleKafkaStartSubmitsOnce | hazelcast/hazelcast-server/src/main/java/neil/demo/devoxxma2017/CommandListener.java:98-105 | two kafka-start commands submit one job; the second is ignored |
| SpeedoAggregation.Accumulated | hazelcast/hazelcast-server/src/main/java/neil/demo/devoxxma2017/jet/SpeedoAggregation.java:73-92 | accumulate counts the point, keeps the first key, and widens the first and last points to cover the new point's time |
| SpeedoAggregation.Combined | hazelcast/hazelcast-server/src/main/java/neil/demo/devoxxma2017/jet/SpeedoAggregation.java:102-122 | combine adds the counts, keeps the receiver's key when set, and an empty side changes nothing |
| SpeedoAggregation.Fold | hazelcast/hazelcast-server/src/main/java/neil/demo/devoxxma2017/jet/SpeedoAggregation.java:73-92 | accumulating any items keeps the accumulator well formed |
| SpeedoAggregation.Divide | hazelcast/hazelcast-server/src/main/java/neil/demo/devoxxma2017/jet/SpeedoAggregation.java:188 | metres over seconds is the over-zero case exactly when the seconds are zero |
| SpeedoAggregation.Finish | hazelcast/hazelcast-server/src/main/java/neil/demo/devoxxma2017/jet/SpeedoAggregation.java:160-196 | finish gives the key; the default speed below two points; else the last point's time, speed zero for equal ends, and a positive speed only with a key and two points |
| SpeedoAggregation.Aggregator.constructor | hazelcast/hazelcast-server/src/main/java/neil/demo/devoxxma2017/jet/SpeedoAggregation.java:60-63 | a new aggregator is empty |
| SpeedoAggregation.Aggregator.Accumulate | hazelcast/hazelcast-server/src/main/java/neil/demo/devoxxma2017/jet/SpeedoAggregation.java:73-92 | the fields move as `Accumulated` says |
| SpeedoAggregation.Aggregator.Combine | hazelcast/hazelcast-server/src/main/java/neil/demo/devoxxma2017/jet/SpeedoAggregation.java:102-122 | the fields move as `Combined` says, `that` possibly being this aggregator |
| SpeedoAggregation.AccumulateKeepsTies | hazelcast/hazelcast-server/src/main/java/neil/demo/devoxxma2017/jet/SpeedoAggregation.java:83-86 | a point tying with a stored end does not replace it; one strictly inside only adds to the count |
| SpeedoAggregation.FoldFromEmpty | hazelcast/hazelcast-server/src/main/java/neil/demo/devoxxma2017/jet/SpeedoAggregation.java:73-92 | a fold from empty takes the first item's key, counts every item, and its ends are items with the least and the greatest time |
| SpeedoAggregation.FoldOrderIndependent | hazelcast/hazelcast-server/src/main/java/neil/demo/devoxxma2017/jet/SpeedoAggregation.java:73-92 | the count and the end times do not depend on arrival order |
| SpeedoAggregation.CombineEmptyIsIdentity | hazelcast/hazelcast-server/src/main/java/neil/demo/devoxxma2017/jet/SpeedoAggregation.java:105-109 | combining with an empty partial on either side is the identity |
| SpeedoAggregation.CombineTakesEarlierEnds | hazelcast/hazelcast-server/src/main/java/neil/demo/devoxxma2017/jet/SpeedoAggregation.java:110-120 | with both sides non-empty, the merged first and last times are each the smaller of the two |
| SpeedoAggregation.CombineCommutesAndAssociates | hazelcast/hazelcast-server/src/main/java/neil/demo/devoxxma2017/jet/SpeedoAggregation.java:102-122 | combine is commutative and associative on counts and end times |
| SpeedoAggregation.FoldOfConcatFirst | hazelcast/hazelcast-server/src/main/java/neil/demo/devoxxma2017/jet/SpeedoAggregation.java:73-92 | folding two runs in one go starts at the earlier first time |
| SpeedoAggregation.FoldOfConcatLast | hazelcast/hazelcast-server/src/main/java/neil/demo/devoxxma2017/jet/SpeedoAggregation.java:73-92 | folding two runs in one go ends at the later last time |
| SpeedoAggregation.CombineVersusSequentialFold | hazelcast/hazelcast-server/src/main/java/neil/demo/devoxxma2017/jet/SpeedoAggregation.java:102-122 | merging partials agrees with a one-go fold on the count and first time, but ends at the smaller last time where the fold ends at the larger |
| SpeedoAggregation.CombineCanLoseTheLatestPoint | hazelcast/hazelcast-server/src/main/java/neil/demo/devoxxma2017/jet/SpeedoAggregation.java:115 | a three-point window split over two shards merges to a last point at 60 s while one shard ends it at 120 s |
| SpeedoAggregation.FinishTruncatesElapsedSeconds | hazelcast/hazelcast-server/src/main/java/neil/demo/devoxxma2017/jet/SpeedoAggregation.java:186-188 | whenever the two ends differ in latitude or in longitude, the speed is the distance divided by the elapsed time truncated to whole seconds |
| SpeedoAggregation.SinglePointWindowIsStationary | hazelcast/hazelcast-server/src/main/java/neil/demo/devoxxma2017/jet/SpeedoAggregation.java:163 | a one-point window gives the default speed under its key |
| Speedo.WindowIsFiveSlides | hazelcast/hazelcast-server/src/main/java/neil/demo/devoxxma2017/jet/Speedo.java:39-40 | windows are 300000 ms long and slide by 60000 ms, five slides per window |
| Speedo.ProjectEvent | hazelcast/hazelcast-server/src/main/java/neil/demo/devoxxma2017/jet/Speedo.java:238-241 | the projection keeps the event's key and new value and stamps it with the point's time |
| Speedo.DropTimestamp | hazelcast/hazelcast-server/src/main/java/neil/demo/devoxxma2017/jet/Speedo.java:258-261 | step 5 keeps the aggregation's key and speed and drops the window stamp; `ToSink` states what passes |
| Speedo.IsMoving | hazelcast/hazelcast-server/src/main/java/neil/demo/devoxxma2017/jet/Speedo.java:263-264 | step 6 passes entries whose speed is above zero; `ToSink` states the filter both ways |
| Speedo.ToSink | hazelcast/hazelcast-server/src/main/java/neil/demo/devoxxma2017/jet/Speedo.java:258-266 | after the projection and filter, every entry moves, comes from some result, and every moving result gets through |
| Speedo.Merge | hazelcast/hazelcast-server/src/main/java/neil/demo/devoxxma2017/jet/Speedo.java:226-231 | combining a window's shard partials counts all its entries and has a key exactly when there is an entry |
| Speedo.Aggregate | hazelcast/hazelcast-server/src/main/java/neil/demo/devoxxma2017/jet/Speedo.java:249-256 | step 4: each window's shard partials are combined and finished, stamped with the window end; see `SinkGetsOnlyMovingKeyedSpeeds` |
| Speedo.SpeedJob | hazelcast/hazelcast-server/src/main/java/neil/demo/devoxxma2017/jet/Speedo.java:249-266 | steps 4 to 7 over a series of closed windows; `SinkGetsOnlyMovingKeyedSpeeds` and `SpeedMapStaysMoving` state its properties |
| Speedo.SinkGetsOnlyMovingKeyedSpeeds | hazelcast/hazelcast-server/src/main/java/neil/demo/devoxxma2017/jet/Speedo.java:249-266 | whatever reaches the sink has a key and a positive speed and is the finish of a window with at least two entries |
| Speedo.SingleShardIsSequentialFold | hazelcast/hazelcast-server/src/main/java/neil/demo/devoxxma2017/jet/Speedo.java:226-231 | a window read on one shard is that shard's plain fold |
| Speedo.WriteMap | hazelcast/hazelcast-server/src/main/java/neil/demo/devoxxma2017/jet/Speedo.java:268 | the sink adds exactly the entries' keys, each holding an earlier value or one of the written speeds |
| Speedo.SpeedMapStaysMoving | hazelcast/hazelcast-server/src/main/java/neil/demo/devoxxma2017/jet/Speedo.java:263-268 | the job never writes a stationary speed into a map holding only moving ones |
| ApplicationInitializer.Numbered | hazelcast/hazelcast-server/src/main/java/neil/demo/devoxxma2017/ApplicationInitializer.java:44-50 | the lines go under keys 1 to n, line i - 1 under key i, and nothing else |
| ApplicationInitializer.Seeded | hazelcast/hazelcast-server/src/main/java/neil/demo/devoxxma2017/ApplicationInitializer.java:40-50 | a non-empty hamlet map is left as it is; an empty one receives line i - 1 under key i for every line and nothing else |
| ApplicationInitializer.Run | hazelcast/hazelcast-server/src/main/java/neil/demo/devoxxma2017/ApplicationInitializer.java:31-55 | every demo map exists afterwards; the hamlet map is loaded exactly when it was empty, with the number of lines logged |
| ApplicationInitializer.SecondServerSkipsLoading | hazelcast/hazelcast-server/src/main/java/neil/demo/devoxxma2017/ApplicationInitializer.java:40-41 | start-up on a loaded cluster leaves the lines alone: seeding is idempotent for any lines |
| ApplicationInitializer.FreshClusterGetsHamlet | hazelcast/hazelcast-server/src/main/java/neil/demo/devoxxma2017/TestData.java:10-48 | a fresh cluster gets the 35 lines, the first under key 1 and "Be all my ſinnes remembred." under key 35 |
| WordCount.Pieces | hazelcast/hazelcast-server/src/main/java/neil/demo/devoxxma2017/jet/WordCount.java:25 | splitting at `\W+` always gives at least one piece |
| WordCount.PiecesShape | hazelcast/hazelcast-server/src/main/java/neil/demo/devoxxma2017/jet/WordCount.java:25 | the pieces are words; only the first and last can be empty, and each is empty exactly when the line starts or ends with a separator; there is one piece exactly when nothing matches |
| WordCount.PiecesKeepWordChars | hazelcast/hazelcast-server/src/main/java/neil/demo/devoxxma2017/jet/WordCount.java:25 | joining the pieces gives back exactly the line's word characters |
| WordCount.DropTrailingEmpty | hazelcast/hazelcast-server/src/main/java/neil/demo/devoxxma2017/jet/WordCount.java:137 | a prefix that ends in a non-empty string, with only empty strings dropped |
| WordCount.Split | hazelcast/hazelcast-server/src/main/java/neil/demo/devoxxma2017/jet/WordCount.java:137 | WORDS_PATTERN.split with limit 0; `SplitShape`, `SplitJoin` and the examples state its properties |
| WordCount.SplitShape | hazelcast/hazelcast-server/src/main/java/neil/demo/devoxxma2017/jet/WordCount.java:137 | split tokens are words, none empty but a first one exactly when the line starts with a separator; a separator-free line is one token, a separator-only line none |
| WordCount.PiecesJoin | hazelcast/hazelcast-server/src/main/java/neil/demo/devoxxma2017/jet/WordCount.java:25 | the pieces of words joined by separators are those words |
| WordCount.SplitJoin | hazelcast/hazelcast-server/src/main/java/neil/demo/devoxxma2017/jet/WordCount.java:137 | splitting non-empty words joined by separators gives back the words |
| WordCount.LeadingSeparatorGivesEmptyToken | hazelcast/hazelcast-server/src/main/java/neil/demo/devoxxma2017/jet/WordCount.java:137 | a line starting with a separator gives an empty first token |
| WordCount.SeparatorsAlone | hazelcast/hazelcast-server/src/main/java/neil/demo/devoxxma2017/jet/WordCount.java:137 | a line of separators only gives no token at all |
| WordCount.ToBeOrNotToBe | hazelcast/hazelcast-server/src/main/java/neil/demo/devoxxma2017/jet/WordCount.java:93-96 | "To be or not to be" gives To, be, or, not, to, be |
| WordCount.FolioLettersSplitWords | hazelcast/hazelcast-server/src/main/java/neil/demo/devoxxma2017/jet/WordCount.java:137 | the long s and the curly apostrophe of the Folio text are separators for ASCII `\w` |
| WordCount.Lower | hazelcast/hazelcast-server/src/main/java/neil/demo/devoxxma2017/jet/WordCount.java:138 | lowering keeps the length and lowers each character |
| WordCount.LineTokens | hazelcast/hazelcast-server/src/main/java/neil/demo/devoxxma2017/jet/WordCount.java:137-138 | a line's split tokens, lowered; `LineTokensAreLowerCaseWords` states they are words without capitals |
| WordCount.Tokens | hazelcast/hazelcast-server/src/main/java/neil/demo/devoxxma2017/jet/WordCount.java:136-138 | the tokens of all lines, line by line; `FlatMapPermutation` states the line order only permutes them |
| WordCount.FlatMapConcat | hazelcast/hazelcast-server/src/main/java/neil/demo/devoxxma2017/jet/WordCount.java:137 | flatMap distributes over concatenation of its input |
| WordCount.FlatMapPermutation | hazelcast/hazelcast-server/src/main/java/neil/demo/devoxxma2017/jet/WordCount.java:137 | reordering flatMap's input reorders its output |
| WordCount.Count | hazelcast/hazelcast-server/src/main/java/neil/demo/devoxxma2017/jet/WordCount.java:139 | the groupBy keys are exactly the tokens, each counted by its occurrences |
| WordCount.WordCounts | hazelcast/hazelcast-server/src/main/java/neil/demo/devoxxma2017/jet/WordCount.java:136-139 | the counts of the tokens of all lines; `LineOrderDoesNotMatter` and `WordCountsAddUp` state its properties |
| WordCount.DrainTo | hazelcast/hazelcast-server/src/main/java/neil/demo/devoxxma2017/jet/WordCount.java:140 | the sink puts every counted word with its count and leaves other keys alone |
| WordCount.OccurrencesIsMultiplicity | hazelcast/hazelcast-server/src/main/java/neil/demo/devoxxma2017/jet/WordCount.java:139 | a word's count is its multiplicity among the tokens |
| WordCount.LineOrderDoesNotMatter | hazelcast/hazelcast-server/src/main/java/neil/demo/devoxxma2017/jet/WordCount.java:136-140 | the counts do not depend on the order the lines are read in |
| WordCount.LineTokensAreLowerCaseWords | hazelcast/hazelcast-server/src/main/java/neil/demo/devoxxma2017/jet/WordCount.java:137-138 | every token reaching the count is a word without upper-case letters |
| WordCount.CaseIsFolded | hazelcast/hazelcast-server/src/main/java/neil/demo/devoxxma2017/jet/WordCount.java:138 | two words equal ignoring case count as the same word |
| WordCount.CountsAddUp | hazelcast/hazelcast-server/src/main/java/neil/demo/devoxxma2017/jet/WordCount.java:139 | the counts add up to the number of tokens |
| WordCount.WordCountsAddUp | hazelcast/hazelcast-server/src/main/java/neil/demo/devoxxma2017/jet/WordCount.java:136-140 | the counts in the "words" map add up to the tokens of all lines |

## Left out

- `SpeedoAggregation.Accumulated`: the `points` counter is an unbounded integer. Java's `int` could in principle wrap, which is not modelled, since a window never holds 2^31 points.
- The haversine distance and all floating-point arithmetic in finish. `distance` is a parameter, and the speed's value is a real number or the over-zero case of a division by zero seconds.
- Elevation, which the core reads but never uses.
- Jet's windowing, watermarks, partitioning and parallelism are not modelled. Each closed window arrives as a key and the partial inputs of its shards.
- The job DAG and pipeline building, `newJob` and the Jet instance become a parameter. It gives the job id, or None when building or submitting throws.
- GPX parsing and resource reading are left out. They become the `load` parameter, which gives a file's points, or None when no entry was put. An exception after `result.put`, from the log line's `getURL` or from closing the stream, still keeps the entry.
- Kafka sending and the asynchronous callbacks become `delivered`. The 5 ms sleep, the countdown latch and the waiting are left out.
- `ReadKafka`, `SpeedoLogger`'s output, `LoggingListener`, `SpeedPanel`, `SpeedPanelListener` and the Spring configuration classes are not part of this model.
- Logging in every class: outcomes are returned as values instead.
- `ApplicationCommands.Data`: the JSON text of map entries and the exact text of each line are not modelled. Lines are a datatype, and entries arrive already rendered.
- Java null arguments.
- `String.compareTo` is modelled by UTF-16 code unit as Dafny characters, without surrogate pairs.
- `toLowerCase` and `equalsIgnoreCase` go through two small case tables. Each table maps the ASCII letters, plus four other characters: dotless i (U+0131), long s (U+017F), dotted capital I (U+0130) and the Kelvin sign (U+212A). No other character, Latin-1 letters included, is mapped. The tables are exact whenever one side is ASCII: every command constant is, and so is every split token. A non-Turkish default locale is assumed for `String.toLowerCase()`. Under a Turkish locale "I" would lower to dotless i, and "It" and "it" would count as different words.
- The order in which Jet reads the "hamlet" map is free: the lines may come in any order, and `LineOrderDoesNotMatter` covers every order.
