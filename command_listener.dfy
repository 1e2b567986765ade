/**
 * The server-side listener on the "command" map. Each entry is a noun (the
 * key) and a parameter array whose first element is the verb. The listener
 * keeps one handle per continuous job, starts a job only when it holds no
 * handle for it, and on stop forgets the handle without cancelling the job.
 *
 * `Handle` is the specification on the value `Registry`; the class `Listener`
 * holds the same state in fields and its methods follow the Java if/else
 * structure, proved to agree with `Handle`.
 */
module CommandListener {
  import opened Wrappers
  import opened JavaLang
  import opened Constants

  /** The pipeline a job runs: the Kafka reader with its bootstrap servers, or the speedometer. */
  datatype Pipeline = KafkaReader(bootstrapServers: string) | SpeedoPipeline

  /** A job handle returned by the Jet instance. */
  datatype Job = Job(id: int, pipeline: Pipeline)

  /**
   * The listener's two handles, plus the jobs it has handed to the Jet
   * instance so far (the only effect it has outside itself).
   */
  datatype Registry = Registry(kafka: Option<Job>, speedo: Option<Job>, submitted: seq<Job>)

  const INITIAL: Registry := Registry(None, None, [])

  /** What a command led to, one case per log message of the handlers. */
  datatype Outcome =
    | Started(job: Job)
    | IgnoredStart(running: Job)
    | Stopped(forgotten: Job)
    | IgnoredStop
    | UnknownNoun(noun: string)
    | UnknownVerb(verb: string)
    | Trapped   // an exception, caught and logged by entryAdded or entryUpdated

  predicate IsKafka(noun: string) { EqualsIgnoreCase(noun, COMMAND_NOUN_KAFKA) }
  predicate IsSpeedo(noun: string) { EqualsIgnoreCase(noun, COMMAND_NOUN_SPEEDO) }
  predicate IsStart(verb: string) { EqualsIgnoreCase(verb, COMMAND_VERB_START) }
  predicate IsStop(verb: string) { verb == COMMAND_VERB_STOP }

  /** The two nouns can never both match, so at most one handle is ever touched. */
  lemma NounsExclusive(noun: string)
    ensures !(IsKafka(noun) && IsSpeedo(noun))
  {
    assert |COMMAND_NOUN_KAFKA| != |COMMAND_NOUN_SPEEDO|;
  }

  /**
   * handleStart. `newJob` is what the Jet instance returns for the built DAG:
   * a job id, or None when building or submitting throws. Building the Kafka
   * reader with a null server list always throws, as the consumer properties
   * table rejects null values.
   */
  function HandleStart(s: Registry, noun: string, param: Option<string>, newJob: Option<int>): (r: (Registry, Outcome))
    ensures !r.1.Started? ==> r.0 == s
    ensures r.1.Started? ==> r.0.submitted == s.submitted + [r.1.job] && newJob == Some(r.1.job.id)
    ensures r.1.Started? ==> HandleFor(s, noun).None? && HandleFor(r.0, noun) == Some(r.1.job)
    ensures r.1.IgnoredStart? <==> (IsKafka(noun) || IsSpeedo(noun)) && HandleFor(s, noun).Some?
  {
    if IsKafka(noun) then
      if s.kafka.None? then
        if param.None? || newJob.None? then (s, Trapped)
        else
          var job := Job(newJob.value, KafkaReader(param.value));
          (s.(kafka := Some(job), submitted := s.submitted + [job]), Started(job))
      else
        (s, IgnoredStart(s.kafka.value))
    else if IsSpeedo(noun) then
      if s.speedo.None? then
        if newJob.None? then (s, Trapped)
        else
          var job := Job(newJob.value, SpeedoPipeline);
          (s.(speedo := Some(job), submitted := s.submitted + [job]), Started(job))
      else
        (s, IgnoredStart(s.speedo.value))
    else
      (s, UnknownNoun(noun))
  }

  /** handleStop: forget the handle if there is one; the job itself keeps running. */
  function HandleStop(s: Registry, noun: string): (r: (Registry, Outcome))
    ensures r.0.submitted == s.submitted
    ensures (IsKafka(noun) || IsSpeedo(noun)) ==> HandleFor(r.0, noun).None?
    ensures r.1.Stopped? <==> (IsKafka(noun) || IsSpeedo(noun)) && HandleFor(s, noun).Some?
    ensures !r.1.Stopped? ==> r.0 == s
  {
    if IsKafka(noun) then
      if s.kafka.Some? then (s.(kafka := None), Stopped(s.kafka.value)) else (s, IgnoredStop)
    else if IsSpeedo(noun) then
      if s.speedo.Some? then (s.(speedo := None), Stopped(s.speedo.value)) else (s, IgnoredStop)
    else
      (s, UnknownNoun(noun))
  }

  /**
   * handle, wrapped in the try/catch of entryAdded and entryUpdated: an empty
   * parameter array throws at `params[0]`; the start verb is matched ignoring
   * case and takes `params[1]` when there is one; the stop verb is matched
   * exactly; any other verb is reported and ignored.
   */
  function Handle(s: Registry, noun: string, params: seq<string>, newJob: Option<int>): (r: (Registry, Outcome))
    ensures r.1.Trapped? || r.1.UnknownNoun? || r.1.UnknownVerb? || r.1.IgnoredStart? || r.1.IgnoredStop? ==> r.0 == s
    ensures r.0.submitted == if r.1.Started? then s.submitted + [r.1.job] else s.submitted
  {
    if |params| == 0 then
      (s, Trapped)
    else
      var verb := params[0];
      if IsStart(verb) then
        HandleStart(s, noun, if |params| == 1 then None else Some(params[1]), newJob)
      else if IsStop(verb) then
        HandleStop(s, noun)
      else
        (s, UnknownVerb(verb))
  }

  /** The listener object the server registers on the "command" map. */
  class Listener {
    var kafka: Option<Job>
    var speedo: Option<Job>
    var submitted: seq<Job>

    function State(): Registry
      reads this
    {
      Registry(kafka, speedo, submitted)
    }

    constructor ()
      ensures State() == INITIAL
    {
      kafka, speedo, submitted := None, None, [];
    }

    /** entryAdded and entryUpdated: both handle the event the same way and trap any exception. */
    method EntryEvent(noun: string, params: seq<string>, newJob: Option<int>) returns (outcome: Outcome)
      modifies this
      ensures (State(), outcome) == Handle(old(State()), noun, params, newJob)
    {
      if |params| == 0 {
        outcome := Trapped;
        return;
      }
      var verb := params[0];
      if EqualsIgnoreCase(verb, COMMAND_VERB_START) {
        outcome := HandleStartCommand(noun, if |params| == 1 then None else Some(params[1]), newJob);
      } else {
        if verb == COMMAND_VERB_STOP {
          outcome := HandleStopCommand(noun);
        } else {
          outcome := UnknownVerb(verb);
        }
      }
    }

    method HandleStartCommand(noun: string, param: Option<string>, newJob: Option<int>) returns (outcome: Outcome)
      modifies this
      ensures (State(), outcome) == HandleStart(old(State()), noun, param, newJob)
    {
      if EqualsIgnoreCase(noun, COMMAND_NOUN_KAFKA) {
        if kafka == None {
          if param.None? || newJob.None? {
            outcome := Trapped;
          } else {
            var job := Job(newJob.value, KafkaReader(param.value));
            submitted := submitted + [job];
            kafka := Some(job);
            outcome := Started(job);
          }
        } else {
          outcome := IgnoredStart(kafka.value);
        }
      } else {
        if EqualsIgnoreCase(noun, COMMAND_NOUN_SPEEDO) {
          if speedo == None {
            if newJob.None? {
              outcome := Trapped;
            } else {
              var job := Job(newJob.value, SpeedoPipeline);
              submitted := submitted + [job];
              speedo := Some(job);
              outcome := Started(job);
            }
          } else {
            outcome := IgnoredStart(speedo.value);
          }
        } else {
          outcome := UnknownNoun(noun);
        }
      }
    }

    method HandleStopCommand(noun: string) returns (outcome: Outcome)
      modifies this
      ensures (State(), outcome) == HandleStop(old(State()), noun)
    {
      if EqualsIgnoreCase(noun, COMMAND_NOUN_KAFKA) {
        if kafka != None {
          outcome := Stopped(kafka.value);
          kafka := None;
        } else {
          outcome := IgnoredStop;
        }
      } else {
        if EqualsIgnoreCase(noun, COMMAND_NOUN_SPEEDO) {
          if speedo != None {
            outcome := Stopped(speedo.value);
            speedo := None;
          } else {
            outcome := IgnoredStop;
          }
        } else {
          outcome := UnknownNoun(noun);
        }
      }
    }
  }

  // ---------------------------------------------------------------------------
  // Properties of the state machine

  /** The handle a noun refers to, if the noun is a known one. */
  function HandleFor(s: Registry, noun: string): Option<Job> {
    if IsKafka(noun) then s.kafka else if IsSpeedo(noun) then s.speedo else None
  }

  /**
   * A start for kafka or speedo while its handle is empty builds and submits
   * exactly one job and stores its handle; only an exception (including the
   * Kafka reader built without servers) leaves everything as it was.
   */
  lemma StartWhenStopped(s: Registry, noun: string, params: seq<string>, newJob: Option<int>)
    requires |params| > 0 && IsStart(params[0]) && (IsKafka(noun) || IsSpeedo(noun))
    requires HandleFor(s, noun).None?
    ensures var (t, out) := Handle(s, noun, params, newJob);
      && (out.Started? || (out.Trapped? && t == s))
      && (out.Started? <==> newJob.Some? && (IsSpeedo(noun) || |params| > 1))
      && (out.Started? ==> HandleFor(t, noun) == Some(out.job) && t.submitted == s.submitted + [out.job]
                           && out.job.id == newJob.value
                           && out.job.pipeline == if IsKafka(noun) then KafkaReader(params[1]) else SpeedoPipeline)
  {
    NounsExclusive(noun);
  }

  /** A start while the handle is set is ignored: nothing changes and nothing is submitted. */
  lemma StartWhenRunningIsIgnored(s: Registry, noun: string, params: seq<string>, newJob: Option<int>)
    requires |params| > 0 && IsStart(params[0])
    requires HandleFor(s, noun).Some?
    ensures Handle(s, noun, params, newJob) == (s, IgnoredStart(HandleFor(s, noun).value))
  {
  }

  /**
   * Repeating a start that did not throw changes nothing more, whatever the
   * second launch would return. After a start that threw, the next start is
   * a fresh attempt.
   */
  lemma StartIsIdempotent(s: Registry, noun: string, params: seq<string>, job1: Option<int>, job2: Option<int>)
    requires |params| > 0 && IsStart(params[0])
    requires !Handle(s, noun, params, job1).1.Trapped?
    ensures var once := Handle(s, noun, params, job1).0;
      Handle(once, noun, params, job2).0 == once
  {
    NounsExclusive(noun);
    var once := Handle(s, noun, params, job1).0;
    if HandleFor(once, noun).Some? {
      StartWhenRunningIsIgnored(once, noun, params, job2);
    }
  }

  /**
   * A stop forgets the handle and nothing else: no submitted job is withdrawn
   * and the other noun's handle stays; a second stop changes nothing.
   */
  lemma StopForgetsWithoutCancelling(s: Registry, noun: string, params: seq<string>, newJob: Option<int>)
    requires |params| > 0 && IsStop(params[0]) && (IsKafka(noun) || IsSpeedo(noun))
    ensures var (t, out) := Handle(s, noun, params, newJob);
      && t.submitted == s.submitted
      && HandleFor(t, noun).None?
      && (if HandleFor(s, noun).Some? then out == Stopped(HandleFor(s, noun).value) else out == IgnoredStop && t == s)
      && Handle(t, noun, params, newJob) == (t, IgnoredStop)
  {
    NounsExclusive(noun);
    assert !IsStart(params[0]);
  }

  /** The stop verb is case-sensitive: "STOP" is an unknown verb and changes nothing. */
  lemma UpperCaseStopIsUnknown(s: Registry, noun: string, newJob: Option<int>)
    ensures Handle(s, noun, ["STOP"], newJob) == (s, UnknownVerb("STOP"))
  {
    assert |"STOP"| != |COMMAND_VERB_START|;
  }

  /** The start verb and the nouns are not: "START" with "SPEEDO" starts the speedometer. */
  lemma StartVerbAndNounIgnoreCase(newJob: int)
    ensures Handle(INITIAL, "SPEEDO", ["START"], Some(newJob))
      == (Registry(None, Some(Job(newJob, SpeedoPipeline)), [Job(newJob, SpeedoPipeline)]), Started(Job(newJob, SpeedoPipeline)))
  {
    assert IsStart("START") by {
      assert forall i :: 0 <= i < 5 ==> UpperChar(COMMAND_VERB_START[i]) == "START"[i];
    }
    assert IsSpeedo("SPEEDO") by {
      assert forall i :: 0 <= i < 6 ==> UpperChar(COMMAND_NOUN_SPEEDO[i]) == "SPEEDO"[i];
    }
    NounsExclusive("SPEEDO");
    var job := Job(newJob, SpeedoPipeline);
    assert ["START"][0] == "START";
    assert !IsKafka("SPEEDO");
    assert INITIAL.speedo.None? && INITIAL.submitted + [job] == [job];
    assert HandleStart(INITIAL, "SPEEDO", None, Some(newJob)) == (INITIAL.(speedo := Some(job), submitted := [job]), Started(job));
  }

  /**
   * A noun other than kafka and speedo, such as the "wordcount" the client
   * sends, is reported and changes nothing, whatever the verb.
   */
  lemma UnknownNounChangesNothing(s: Registry, noun: string, params: seq<string>, newJob: Option<int>)
    requires !IsKafka(noun) && !IsSpeedo(noun)
    ensures Handle(s, noun, params, newJob).0 == s
  {
  }

  lemma WordcountIsUnknown()
    ensures !IsKafka(COMMAND_NOUN_WORDCOUNT) && !IsSpeedo(COMMAND_NOUN_WORDCOUNT)
  {
  }

  /** A command about one noun never touches the other noun's handle. */
  lemma NounsAreIsolated(s: Registry, noun: string, params: seq<string>, newJob: Option<int>)
    ensures !IsKafka(noun) ==> Handle(s, noun, params, newJob).0.kafka == s.kafka
    ensures !IsSpeedo(noun) ==> Handle(s, noun, params, newJob).0.speedo == s.speedo
  {
  }

  /** A command delivered to the listener: its noun, its parameters and what launching would return. */
  datatype Command = Command(noun: string, params: seq<string>, newJob: Option<int>)

  /** The listener's state after a series of commands, in delivery order. */
  function Run(s: Registry, commands: seq<Command>): Registry {
    if commands == [] then s
    else
      var c := commands[|commands| - 1];
      Handle(Run(s, commands[..|commands| - 1]), c.noun, c.params, c.newJob).0
  }

  /** The number of kafka reader jobs in a list of submitted jobs. */
  function KafkaJobs(jobs: seq<Job>): nat {
    if jobs == [] then 0
    else KafkaJobs(jobs[..|jobs| - 1]) + if jobs[|jobs| - 1].pipeline.KafkaReader? then 1 else 0
  }

  lemma KafkaJobsAppend(jobs: seq<Job>, job: Job)
    ensures KafkaJobs(jobs + [job]) == KafkaJobs(jobs) + if job.pipeline.KafkaReader? then 1 else 0
  {
    assert (jobs + [job])[..|jobs|] == jobs;
  }

  /**
   * However often a start for kafka is delivered, with no stop for kafka in
   * between at most one kafka job is submitted, and none if one was running.
   */
  lemma {:induction false} RepeatedStartsSubmitOneJob(s: Registry, commands: seq<Command>)
    requires forall i :: 0 <= i < |commands| ==> !(IsKafka(commands[i].noun) && |commands[i].params| > 0 && IsStop(commands[i].params[0]))
    ensures var t := Run(s, commands);
      && KafkaJobs(t.submitted) <= KafkaJobs(s.submitted) + 1
      && (s.kafka.Some? ==> KafkaJobs(t.submitted) == KafkaJobs(s.submitted) && t.kafka == s.kafka)
      && (KafkaJobs(t.submitted) == KafkaJobs(s.submitted) + 1 ==> t.kafka.Some?)
  {
    if commands != [] {
      var init := commands[..|commands| - 1];
      var c := commands[|commands| - 1];
      assert forall i :: 0 <= i < |init| ==> init[i] == commands[i];
      RepeatedStartsSubmitOneJob(s, init);
      NoKafkaStopStep(Run(s, init), c);
    }
  }

  /** One command that is not a kafka stop: at most one more kafka job, and only into an empty handle. */
  lemma NoKafkaStopStep(p: Registry, c: Command)
    requires !(IsKafka(c.noun) && |c.params| > 0 && IsStop(c.params[0]))
    ensures var t := Handle(p, c.noun, c.params, c.newJob).0;
      && (p.kafka.Some? ==> t.kafka == p.kafka && KafkaJobs(t.submitted) == KafkaJobs(p.submitted))
      && (KafkaJobs(t.submitted) == KafkaJobs(p.submitted) || (KafkaJobs(t.submitted) == KafkaJobs(p.submitted) + 1 && t.kafka.Some?))
  {
    var (t, out) := Handle(p, c.noun, c.params, c.newJob);
    NounsExclusive(c.noun);
    if out.Started? {
      KafkaJobsAppend(p.submitted, out.job);
    }
  }
}
