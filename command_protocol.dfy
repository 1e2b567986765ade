/**
 * The client and the server meet only in the "command" map: each client
 * command puts a parameter array under a noun, and the listener receives the
 * same noun and array in its entry event. These lemmas follow each client
 * command through that map into the listener.
 */
module CommandProtocol {
  import opened Wrappers
  import opened Constants
  import opened JavaLang
  import ApplicationCommands
  import opened CommandListener

  /** Every constant compares equal to itself ignoring case. */
  lemma EqualsIgnoreCaseReflexive(s: string)
    ensures EqualsIgnoreCase(s, s)
  {
  }

  /** The client's nouns and verbs are the ones the listener recognises, wordcount aside. */
  lemma ClientWordsAreRecognised()
    ensures IsKafka(COMMAND_NOUN_KAFKA) && !IsSpeedo(COMMAND_NOUN_KAFKA)
    ensures IsSpeedo(COMMAND_NOUN_SPEEDO) && !IsKafka(COMMAND_NOUN_SPEEDO)
    ensures !IsKafka(COMMAND_NOUN_WORDCOUNT) && !IsSpeedo(COMMAND_NOUN_WORDCOUNT)
    ensures IsStart(COMMAND_VERB_START) && !IsStop(COMMAND_VERB_START)
    ensures IsStop(COMMAND_VERB_STOP) && !IsStart(COMMAND_VERB_STOP)
  {
    EqualsIgnoreCaseReflexive(COMMAND_NOUN_KAFKA);
    EqualsIgnoreCaseReflexive(COMMAND_NOUN_SPEEDO);
    EqualsIgnoreCaseReflexive(COMMAND_VERB_START);
    NounsExclusive(COMMAND_NOUN_KAFKA);
    NounsExclusive(COMMAND_NOUN_SPEEDO);
    WordcountIsUnknown();
    assert |COMMAND_VERB_START| != |COMMAND_VERB_STOP|;
  }

  /** The event the listener sees after a client command: the noun and the array now stored under it. */
  function Delivered(commands: ApplicationCommands.CommandMap, noun: string): (params: seq<string>)
    requires noun in commands
  {
    commands[noun]
  }

  /**
   * kafka-start reaches a listener with no Kafka handle as a start of the
   * Kafka reader on exactly the servers the client chose: the option when it
   * is non-empty, the configured bootstrap servers otherwise.
   */
  lemma KafkaStartStartsTheReader(commands: ApplicationCommands.CommandMap, kafka: Option<string>, bootstrapServers: string,
                                  s: Registry, id: int)
    requires s.kafka.None?
    ensures var params := Delivered(ApplicationCommands.StartKafka(commands, kafka, bootstrapServers).0, COMMAND_NOUN_KAFKA);
      var servers := if kafka.None? || kafka.value == "" then bootstrapServers else kafka.value;
      var job := Job(id, KafkaReader(servers));
      Handle(s, COMMAND_NOUN_KAFKA, params, Some(id)) == (s.(kafka := Some(job), submitted := s.submitted + [job]), Started(job))
  {
    ClientWordsAreRecognised();
  }

  /** kafka-stop reaches the listener as a stop: the Kafka handle is forgotten and nothing else changes. */
  lemma KafkaStopForgetsTheReader(commands: ApplicationCommands.CommandMap, s: Registry, newJob: Option<int>)
    ensures var params := Delivered(ApplicationCommands.StopKafka(commands).0, COMMAND_NOUN_KAFKA);
      Handle(s, COMMAND_NOUN_KAFKA, params, newJob)
        == (s.(kafka := None), if s.kafka.Some? then Stopped(s.kafka.value) else IgnoredStop)
  {
    ClientWordsAreRecognised();
  }

  /** speedo-start reaches a listener with no speedometer handle as a start of the speedometer. */
  lemma SpeedoStartStartsTheSpeedometer(commands: ApplicationCommands.CommandMap, s: Registry, id: int)
    requires s.speedo.None?
    ensures var params := Delivered(ApplicationCommands.StartSpeedo(commands).0, COMMAND_NOUN_SPEEDO);
      var job := Job(id, SpeedoPipeline);
      Handle(s, COMMAND_NOUN_SPEEDO, params, Some(id)) == (s.(speedo := Some(job), submitted := s.submitted + [job]), Started(job))
  {
    ClientWordsAreRecognised();
  }

  /** speedo-stop reaches the listener as a stop: the speedometer handle is forgotten and nothing else changes. */
  lemma SpeedoStopForgetsTheSpeedometer(commands: ApplicationCommands.CommandMap, s: Registry, newJob: Option<int>)
    ensures var params := Delivered(ApplicationCommands.StopSpeedo(commands).0, COMMAND_NOUN_SPEEDO);
      Handle(s, COMMAND_NOUN_SPEEDO, params, newJob)
        == (s.(speedo := None), if s.speedo.Some? then Stopped(s.speedo.value) else IgnoredStop)
  {
    ClientWordsAreRecognised();
  }

  /** wordcount-start is a noun the listener does not know: it is reported and nothing is started. */
  lemma WordcountIsNeverStarted(commands: ApplicationCommands.CommandMap, s: Registry, newJob: Option<int>)
    ensures var params := Delivered(ApplicationCommands.Wordcount(commands).0, COMMAND_NOUN_WORDCOUNT);
      Handle(s, COMMAND_NOUN_WORDCOUNT, params, newJob) == (s, UnknownNoun(COMMAND_NOUN_WORDCOUNT))
  {
    ClientWordsAreRecognised();
  }

  /** Starting the Kafka reader twice from the client submits one job: the second start is ignored. */
  lemma DoubleKafkaStartSubmitsOnce(commands: ApplicationCommands.CommandMap, kafka: Option<string>, bootstrapServers: string,
                                    s: Registry, id1: int, id2: int)
    requires s.kafka.None?
    ensures var params := Delivered(ApplicationCommands.StartKafka(commands, kafka, bootstrapServers).0, COMMAND_NOUN_KAFKA);
      var (t1, out1) := Handle(s, COMMAND_NOUN_KAFKA, params, Some(id1));
      var (t2, out2) := Handle(t1, COMMAND_NOUN_KAFKA, params, Some(id2));
      t2 == t1 && out2 == IgnoredStart(out1.job) && |t2.submitted| == |s.submitted| + 1
  {
    KafkaStartStartsTheReader(commands, kafka, bootstrapServers, s, id1);
  }
}
