/**
 * The client's shell commands. Each job command writes a parameter array under
 * its noun into the "command" map, which is modelled as a map value passed in
 * and returned; `Data` lists the cluster's distributed objects.
 */
module ApplicationCommands {
  import opened Wrappers
  import opened JavaLang
  import opened Constants

  /** The "command" map: noun to parameter array. */
  type CommandMap = map<string, seq<string>>

  const DISTRIBUTED_OBJECT_INTERNAL_PREFIX: string := "__"

  /** A shell command name: the noun, a dash, the verb. */
  function CommandName(noun: string, verb: string): string {
    noun + "-" + verb
  }

  const KAFKA_START: string := CommandName(COMMAND_NOUN_KAFKA, COMMAND_VERB_START)
  const KAFKA_STOP: string := CommandName(COMMAND_NOUN_KAFKA, COMMAND_VERB_STOP)
  const SPEEDO_START: string := CommandName(COMMAND_NOUN_SPEEDO, COMMAND_VERB_START)
  const SPEEDO_STOP: string := CommandName(COMMAND_NOUN_SPEEDO, COMMAND_VERB_STOP)
  const WORDCOUNT_START: string := CommandName(COMMAND_NOUN_WORDCOUNT, COMMAND_VERB_START)

  /**
   * Splits a command name at its first dash back into noun and verb. The
   * client never parses names; this inverse only serves to show that the
   * naming scheme gives distinct commands distinct names.
   */
  function ParseCommandName(name: string): (r: Option<(string, string)>)
    ensures r.Some? ==> '-' !in r.value.0
  {
    if name == [] then None
    else if name[0] == '-' then Some(([], name[1..]))
    else match ParseCommandName(name[1..])
      case None => None
      case Some((noun, verb)) => Some(([name[0]] + noun, verb))
  }

  /** A command name gives back its noun and verb, as long as the noun has no dash. */
  lemma {:induction false} ParseCommandNameInverts(noun: string, verb: string)
    requires '-' !in noun
    ensures ParseCommandName(CommandName(noun, verb)) == Some((noun, verb))
  {
    var name := CommandName(noun, verb);
    if noun == [] {
      assert name[0] == '-' && name[1..] == verb;
    } else {
      assert name[0] == noun[0] != '-';
      assert name[1..] == CommandName(noun[1..], verb);
      ParseCommandNameInverts(noun[1..], verb);
      assert [noun[0]] + noun[1..] == noun;
    }
  }

  /** Nouns without a dash give distinct command names to distinct noun and verb pairs. */
  lemma CommandNameInjective(noun1: string, verb1: string, noun2: string, verb2: string)
    requires '-' !in noun1 && '-' !in noun2
    requires CommandName(noun1, verb1) == CommandName(noun2, verb2)
    ensures noun1 == noun2 && verb1 == verb2
  {
    ParseCommandNameInverts(noun1, verb1);
    ParseCommandNameInverts(noun2, verb2);
  }

  /** The five command names are "kafka-start", "kafka-stop", "speedo-start", "speedo-stop" and "wordcount-start". */
  lemma CommandNames()
    ensures KAFKA_START == "kafka-start" && KAFKA_STOP == "kafka-stop"
    ensures SPEEDO_START == "speedo-start" && SPEEDO_STOP == "speedo-stop"
    ensures WORDCOUNT_START == "wordcount-start"
  {
  }

  /**
   * kafka-start: writes ["start", servers] under "kafka", where servers is the
   * option when given and not empty, and the configured bootstrap servers
   * otherwise. Returns the confirmation text.
   */
  function StartKafka(commands: CommandMap, kafka: Option<string>, bootstrapServers: string): (r: (CommandMap, string))
    ensures r.0.Keys == commands.Keys + {COMMAND_NOUN_KAFKA}
    ensures forall noun :: noun in commands && noun != COMMAND_NOUN_KAFKA ==> r.0[noun] == commands[noun]
    ensures |r.0[COMMAND_NOUN_KAFKA]| == 2 && r.0[COMMAND_NOUN_KAFKA][0] == COMMAND_VERB_START
    ensures r.0[COMMAND_NOUN_KAFKA][1] == if kafka.None? || kafka.value == "" then bootstrapServers else kafka.value
  {
    var servers := if kafka.None? || |kafka.value| == 0 then bootstrapServers else kafka.value;
    var params := [COMMAND_VERB_START, servers];
    (commands[COMMAND_NOUN_KAFKA := params],
     "Requested " + COMMAND_VERB_START + " job '" + COMMAND_NOUN_KAFKA + "' with " + servers)
  }

  /** A one-element request: writes [verb] under noun. */
  function Request(commands: CommandMap, noun: string, verb: string): (r: (CommandMap, string))
    ensures r.0.Keys == commands.Keys + {noun}
    ensures forall other :: other in commands && other != noun ==> r.0[other] == commands[other]
    ensures r.0[noun] == [verb]
  {
    (commands[noun := [verb]], "Requested " + verb + " job '" + noun + "'")
  }

  /** kafka-stop: writes ["stop"] under "kafka". */
  function StopKafka(commands: CommandMap): (r: (CommandMap, string))
    ensures r.0.Keys == commands.Keys + {COMMAND_NOUN_KAFKA} && r.0[COMMAND_NOUN_KAFKA] == [COMMAND_VERB_STOP]
    ensures forall other :: other in commands && other != COMMAND_NOUN_KAFKA ==> r.0[other] == commands[other]
  {
    Request(commands, COMMAND_NOUN_KAFKA, COMMAND_VERB_STOP)
  }

  /** speedo-start: writes ["start"] under "speedo". */
  function StartSpeedo(commands: CommandMap): (r: (CommandMap, string))
    ensures r.0.Keys == commands.Keys + {COMMAND_NOUN_SPEEDO} && r.0[COMMAND_NOUN_SPEEDO] == [COMMAND_VERB_START]
    ensures forall other :: other in commands && other != COMMAND_NOUN_SPEEDO ==> r.0[other] == commands[other]
  {
    Request(commands, COMMAND_NOUN_SPEEDO, COMMAND_VERB_START)
  }

  /** speedo-stop: writes ["stop"] under "speedo". */
  function StopSpeedo(commands: CommandMap): (r: (CommandMap, string))
    ensures r.0.Keys == commands.Keys + {COMMAND_NOUN_SPEEDO} && r.0[COMMAND_NOUN_SPEEDO] == [COMMAND_VERB_STOP]
    ensures forall other :: other in commands && other != COMMAND_NOUN_SPEEDO ==> r.0[other] == commands[other]
  {
    Request(commands, COMMAND_NOUN_SPEEDO, COMMAND_VERB_STOP)
  }

  /** wordcount-start: writes ["start"] under "wordcount". */
  function Wordcount(commands: CommandMap): (r: (CommandMap, string))
    ensures r.0.Keys == commands.Keys + {COMMAND_NOUN_WORDCOUNT} && r.0[COMMAND_NOUN_WORDCOUNT] == [COMMAND_VERB_START]
    ensures forall other :: other in commands && other != COMMAND_NOUN_WORDCOUNT ==> r.0[other] == commands[other]
  {
    Request(commands, COMMAND_NOUN_WORDCOUNT, COMMAND_VERB_START)
  }

  /** A later command for a noun overwrites the earlier one: the map keeps only the last request. */
  lemma LastRequestWins(commands: CommandMap, kafka: Option<string>, bootstrapServers: string)
    ensures StopKafka(StartKafka(commands, kafka, bootstrapServers).0).0 == StopKafka(commands).0
    ensures StartSpeedo(StopSpeedo(commands).0).0 == StartSpeedo(commands).0
    ensures StopSpeedo(StartSpeedo(commands).0).0 == StopSpeedo(commands).0
  {
  }

  // ---------------------------------------------------------------------------
  // data: the listing of distributed objects

  /** A distributed object: a map with its entries already rendered as JSON text, or any other object. */
  datatype DistributedObject =
    | MapObject(name: string, entries: seq<(string, string)>)
    | OtherObject(name: string, className: string)

  /** The lines of the listing; the text of each line is not modelled. */
  datatype Line =
    | Rule
    | MapLine(name: string, size: nat)
    | EntryLine(key: string, value: string)
    | ObjectLine(name: string, className: string)
    | CountLine(count: nat, suffix: string)

  predicate IsInternal(o: DistributedObject) {
    StartsWith(o.name, DISTRIBUTED_OBJECT_INTERNAL_PREFIX)
  }

  /** The objects that are listed and counted: those whose name does not start with "__". */
  function Visible(objects: seq<DistributedObject>): (r: seq<DistributedObject>)
    ensures |r| <= |objects|
    ensures forall i :: 0 <= i < |r| ==> !IsInternal(r[i])
  {
    if objects == [] then []
    else
      var o := objects[|objects| - 1];
      Visible(objects[..|objects| - 1]) + if IsInternal(o) then [] else [o]
  }

  /** The visible objects are exactly the objects whose name lacks the internal prefix. */
  lemma {:induction false} VisibleMembers(objects: seq<DistributedObject>)
    ensures forall o :: o in Visible(objects) <==> o in objects && !IsInternal(o)
  {
    if objects != [] {
      var init := objects[..|objects| - 1];
      assert objects == init + [objects[|objects| - 1]];
      VisibleMembers(init);
    }
  }

  /** "object" for one, "objects" for any other count, zero included. */
  function Plural(count: nat): (suffix: string)
    ensures suffix == "" <==> count == 1
  {
    if count == 1 then "" else "s"
  }

  /** One line per entry of a map, in the map's iteration order. */
  function EntryLines(entries: seq<(string, string)>): seq<Line> {
    if entries == [] then [] else EntryLines(entries[..|entries| - 1]) + [EntryLine(entries[|entries| - 1].0, entries[|entries| - 1].1)]
  }

  /** Line i of a map's entries shows entry i: no entry is dropped, added or moved. */
  lemma {:induction false} EntryLinesShape(entries: seq<(string, string)>)
    ensures |EntryLines(entries)| == |entries|
    ensures forall i :: 0 <= i < |entries| ==> EntryLines(entries)[i] == EntryLine(entries[i].0, entries[i].1)
  {
    if entries != [] {
      var init := entries[..|entries| - 1];
      EntryLinesShape(init);
      forall i | 0 <= i < |init| ensures entries[i] == init[i] { }
    }
  }

  /** The lines for one listed object. */
  function ObjectLines(o: DistributedObject): seq<Line> {
    match o
    case MapObject(name, entries) => [MapLine(name, |entries|)] + EntryLines(entries)
    case OtherObject(name, className) => [ObjectLine(name, className)]
  }

  /** The body of the listing: the lines of every visible object, in iteration order. */
  function Body(objects: seq<DistributedObject>): seq<Line> {
    if objects == [] then []
    else
      var o := objects[|objects| - 1];
      Body(objects[..|objects| - 1]) + if IsInternal(o) then [] else ObjectLines(o)
  }

  /** Extending the objects by one adds that object's lines and count, when it is visible. */
  lemma ExtendByOne(objects: seq<DistributedObject>, o: DistributedObject)
    ensures Body(objects + [o]) == Body(objects) + if IsInternal(o) then [] else ObjectLines(o)
    ensures Visible(objects + [o]) == Visible(objects) + if IsInternal(o) then [] else [o]
  {
    assert (objects + [o])[..|objects|] == objects;
  }

  /** The lines of one listed object: a map's header and entries in key-set order, or the object's class. */
  method RenderObject(o: DistributedObject) returns (lines: seq<Line>)
    ensures lines == ObjectLines(o)
  {
    match o {
      case MapObject(name, entries) =>
        var entryLines := [];
        ghost var seen := [];
        for j := 0 to |entries|
          invariant seen == entries[..j]
          invariant entryLines == EntryLines(seen)
        {
          var (key, value) := entries[j];
          assert (seen + [(key, value)])[..j] == seen;
          entryLines := entryLines + [EntryLine(key, value)];
          seen := seen + [(key, value)];
        }
        assert seen == entries;
        lines := [MapLine(name, |entries|)] + entryLines;
      case OtherObject(name, className) =>
        lines := [ObjectLine(name, className)];
    }
  }

  /**
   * data: a rule, the lines of each visible object, the count line and a rule.
   * The count is the number of visible objects.
   */
  method Data(objects: seq<DistributedObject>) returns (listing: seq<Line>, count: nat)
    ensures count == |Visible(objects)|
    ensures listing == [Rule] + Body(objects) + [CountLine(count, Plural(count)), Rule]
  {
    var body := [];
    count := 0;
    ghost var seen := [];
    for i := 0 to |objects|
      invariant seen == objects[..i]
      invariant count == |Visible(seen)|
      invariant body == Body(seen)
    {
      var o := objects[i];
      var lines := [];
      if !IsInternal(o) {
        count := count + 1;
        lines := RenderObject(o);
      }
      assert count == |Visible(seen + [o])| && body + lines == Body(seen + [o]) by {
        ExtendByOne(seen, o);
      }
      assert seen + [o] == objects[..i + 1];
      body := body + lines;
      seen := seen + [o];
    }
    assert seen == objects;
    listing := [Rule] + body + [CountLine(count, Plural(count)), Rule];
  }

  /** A listing with an internal object added anywhere is the same listing. */
  lemma {:induction false} InternalObjectsAreInvisible(xs: seq<DistributedObject>, o: DistributedObject, ys: seq<DistributedObject>)
    requires IsInternal(o)
    ensures Body(xs + [o] + ys) == Body(xs + ys)
    ensures Visible(xs + [o] + ys) == Visible(xs + ys)
  {
    if ys == [] {
      assert xs + [o] + ys == xs + [o] && xs + ys == xs;
      ExtendByOne(xs, o);
    } else {
      var init := ys[..|ys| - 1];
      var y := ys[|ys| - 1];
      assert xs + [o] + ys == (xs + [o] + init) + [y];
      assert xs + ys == (xs + init) + [y];
      InternalObjectsAreInvisible(xs, o, init);
      ExtendByOne(xs + [o] + init, y);
      ExtendByOne(xs + init, y);
    }
  }
}
